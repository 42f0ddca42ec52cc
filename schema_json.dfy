/** The JSON form of the version-1 schema: what `encoding/json` writes for a
    `CLIOutput` (the field names of the struct tags, times through
    `Time.MarshalJSON`, a nil slice as `null`) and how `json.Unmarshal` reads
    such text back into a zero `CLIOutput`. The main result, `RoundTrip`, is
    that the printed output reads back as the very same value. */
module SchemaJson {
  import opened Wrappers
  import opened Chrono
  import opened Schema
  import J = Json
  import R = Rfc3339

  /** Why `json.Marshal` refuses a value: a time it cannot write as RFC 3339. */
  datatype EncodeError = YearOutOfRange(year: int) | ZoneHourOutOfRange(offset: int)

  /** Why `json.Unmarshal` refuses a text. */
  datatype DecodeError =
    | SyntaxError
    | TypeMismatch(field: string)
    | BadTime(text: string)

  const Int64Min := -0x8000_0000_0000_0000
  const Int64Max := 0x7FFF_FFFF_FFFF_FFFF

  // ------------------------------------------------------------------ times

  /** The hour of the zone as `Z07:00` writes it (`Z` for UTC counts as 0). */
  function ZoneHour(offset: int): nat {
    if offset == 0 then 0 else (if offset < 0 then -offset else offset) / 60 / 60
  }

  /** `Time.MarshalJSON`: the RFC 3339 text with nanoseconds, refused when
      the year is not four digits or the zone hour is not below 24. */
  function EncodeTime(t: Time): Result<J.Value, EncodeError> {
    var year := R.WallClock(t).date.year;
    if year < 0 || 9999 < year then Err(YearOutOfRange(year))
    else if 24 <= ZoneHour(t.offset) then Err(ZoneHourOutOfRange(t.offset))
    else Ok(J.String(R.FormatRFC3339Nano(t)))
  }

  /** `Time.UnmarshalJSON`: `null` leaves the time as it was; a string is
      parsed as RFC 3339; anything else is refused. For a string the fast
      RFC 3339 reader refuses, Go falls back on `time.Parse(time.RFC3339, …)`
      and returns its result (the stricter checks after it are switched off),
      so the layout parser's grammar is the one that decides. */
  function DecodeTime(v: J.Value, into: Time): Result<Time, DecodeError> {
    match v
    case Null => Ok(into)
    case String(s) =>
      (match R.ParseRFC3339(s)
       case Some(t) => Ok(t)
       case None => Err(BadTime(s)))
    case _ => Err(TypeMismatch("time"))
  }

  /** A time `Time.MarshalJSON` accepts. */
  predicate WritableTime(t: Time) {
    R.InFourDigitYears(t) && ZoneHour(t.offset) < 24
  }

  lemma EncodeTimeOk(t: Time)
    ensures EncodeTime(t).Ok? <==> WritableTime(t)
    ensures EncodeTime(t).Ok? ==> EncodeTime(t).value.String?
  {
  }

  /** A time written in whole minutes reads back as itself. */
  lemma TimeRoundTrip(t: Time, into: Time)
    requires R.InFourDigitYears(t) && R.WholeMinuteOffset(t.offset)
    ensures EncodeTime(t).Ok?
    ensures DecodeTime(EncodeTime(t).value, into) == Ok(t)
  {
    assert ZoneHour(t.offset) < 24;
    R.ParseFormatNano(t);
  }

  // ------------------------------------------------------- scalar fields

  function DecodeString(v: J.Value, into: string, field: string): Result<string, DecodeError> {
    match v
    case Null => Ok(into)
    case String(s) => Ok(s)
    case _ => Err(TypeMismatch(field))
  }

  function DecodeBool(v: J.Value, into: bool, field: string): Result<bool, DecodeError> {
    match v
    case Null => Ok(into)
    case Bool(b) => Ok(b)
    case _ => Err(TypeMismatch(field))
  }

  /** A Go `int` (64 bits): a number outside its range is refused. */
  function DecodeInt(v: J.Value, into: int, field: string): Result<int, DecodeError> {
    match v
    case Null => Ok(into)
    case Number(n) => if Int64Min <= n <= Int64Max then Ok(n) else Err(TypeMismatch(field))
    case _ => Err(TypeMismatch(field))
  }

  // ---------------------------------------------------------- field names

  /** The ASCII part of the case folding `encoding/json` applies to keys. */
  function FoldChar(c: char): char {
    if 'a' <= c <= 'z' then (c as int - 32) as char else c
  }

  function Fold(s: string): (r: string)
    ensures |r| == |s|
  {
    seq(|s|, i requires 0 <= i < |s| => FoldChar(s[i]))
  }

  /** The position of `key` in `names`, if it is there. */
  function IndexOf(key: string, names: seq<string>): (r: Option<nat>)
    ensures r.Some? ==> r.value < |names| && names[r.value] == key
    ensures r.Some? ==> forall j :: 0 <= j < r.value ==> names[j] != key
    ensures r.None? ==> key !in names
  {
    if names == [] then None
    else if names[0] == key then Some(0)
    else
      match IndexOf(key, names[1..])
      case None => None
      case Some(i) => Some(i + 1)
  }

  /** The field a key names: the field of exactly that name, else the first
      whose name equals the key up to case. */
  function FieldIndex(key: string, names: seq<string>): (r: Option<nat>)
    ensures r.Some? ==> r.value < |names| && Fold(names[r.value]) == Fold(key)
  {
    match IndexOf(key, names)
    case Some(i) => Some(i)
    case None =>
      var folded := seq(|names|, i requires 0 <= i < |names| => Fold(names[i]));
      match IndexOf(Fold(key), folded)
      case Some(i) => Some(i)
      case None => None
  }

  /** Names no two of which are equal. */
  predicate Distinct(names: seq<string>) {
    forall i, j :: 0 <= i < j < |names| ==> names[i] != names[j]
  }

  lemma FieldIndexOfName(names: seq<string>, i: nat)
    requires Distinct(names) && i < |names|
    ensures FieldIndex(names[i], names) == Some(i)
  {
    assert names[i] in names;
  }

  // --------------------------------------------------------------- objects

  /** How one field of a struct of type `T` is read from a member's value. */
  type Setter<!T> = (J.Value, T) -> Result<T, DecodeError>

  /** One member: the field it names is updated by that field's setter; a
      member that names no field leaves the struct as it is. */
  function DecodeMember<T>(m: J.Member, into: T, names: seq<string>, setters: seq<Setter<T>>): Result<T, DecodeError> {
    match FieldIndex(m.key, names)
    case Some(k) => if k < |setters| then setters[k](m.value, into) else Ok(into)
    case None => Ok(into)
  }

  /** Reads the members of an object into `into` one after the other, so
      that the last of several members for one field wins. */
  function DecodeMembers<T>(ms: seq<J.Member>, into: T, names: seq<string>, setters: seq<Setter<T>>): Result<T, DecodeError> {
    if ms == [] then Ok(into)
    else
      var next :- DecodeMember(ms[0], into, names, setters);
      DecodeMembers(ms[1..], next, names, setters)
  }

  /** A struct: `null` keeps it, an object updates it field by field. */
  function DecodeStruct<T>(v: J.Value, into: T, names: seq<string>, setters: seq<Setter<T>>, name: string): Result<T, DecodeError> {
    match v
    case Null => Ok(into)
    case Object(ms) => DecodeMembers(ms, into, names, setters)
    case _ => Err(TypeMismatch(name))
  }

  /** A member named after field `k` goes through that field's setter. */
  lemma DecodeMembersStep<T>(ms: seq<J.Member>, into: T, next: T, names: seq<string>, setters: seq<Setter<T>>, k: nat)
    requires Distinct(names) && k < |names| && k < |setters|
    requires ms != [] && ms[0].key == names[k] && setters[k](ms[0].value, into) == Ok(next)
    ensures DecodeMembers(ms, into, names, setters) == DecodeMembers(ms[1..], next, names, setters)
  {
    FieldIndexOfName(names, k);
  }

  /** Members named after fields `off`, `off + 1`, ... in turn, each read
      by its setter from the struct `part(i)` into `part(i + 1)`. */
  ghost predicate ReadInOrder<T>(ms: seq<J.Member>, names: seq<string>, setters: seq<Setter<T>>, off: nat, part: nat -> T) {
    && off + |ms| <= |names| && off + |ms| <= |setters|
    && (forall i :: 0 <= i < |ms| ==> ms[i].key == names[off + i])
    && (forall i :: 0 <= i < |ms| ==> setters[off + i](ms[i].value, part(off + i)) == Ok(part(off + i + 1)))
  }

  /** Dropping the first member leaves the others in order from `off + 1`. */
  lemma ReadInOrderTail<T>(ms: seq<J.Member>, names: seq<string>, setters: seq<Setter<T>>, off: nat, part: nat -> T)
    requires ms != [] && ReadInOrder(ms, names, setters, off, part)
    ensures ReadInOrder(ms[1..], names, setters, off + 1, part)
  {
    var tail := ms[1..];
    forall i | 0 <= i < |tail|
      ensures tail[i].key == names[off + 1 + i]
      ensures setters[off + 1 + i](tail[i].value, part(off + 1 + i)) == Ok(part(off + 1 + i + 1))
    {
      assert tail[i] == ms[i + 1];
    }
  }

  /** Members read in order take `part(off)` to `part(off + |ms|)`. */
  lemma {:induction false} DecodeMembersInOrder<T>(ms: seq<J.Member>, names: seq<string>, setters: seq<Setter<T>>, off: nat, part: nat -> T)
    requires Distinct(names) && ReadInOrder(ms, names, setters, off, part)
    ensures DecodeMembers(ms, part(off), names, setters) == Ok(part(off + |ms|))
    decreases |ms|
  {
    if ms != [] {
      assert ms[0].key == names[off + 0] && setters[off + 0](ms[0].value, part(off + 0)) == Ok(part(off + 0 + 1));
      DecodeMembersStep(ms, part(off), part(off + 1), names, setters, off);
      ReadInOrderTail(ms, names, setters, off, part);
      DecodeMembersInOrder(ms[1..], names, setters, off + 1, part);
    }
  }

  // -------------------------------------------------------------- organizer

  const OrganizerNames := ["name", "email"]

  function SetOrganizerName(v: J.Value, o: Organizer): Result<Organizer, DecodeError> {
    var name :- DecodeString(v, o.name, "name");
    Ok(o.(name := name))
  }

  function SetOrganizerEmail(v: J.Value, o: Organizer): Result<Organizer, DecodeError> {
    var email :- DecodeString(v, o.email, "email");
    Ok(o.(email := email))
  }

  /** The setters of the fields, in the order of their names. */
  const OrganizerSetters: seq<Setter<Organizer>> := [
    SetOrganizerName,
    SetOrganizerEmail
  ]

  function EncodeOrganizer(o: Organizer): J.Value {
    J.Object([J.Member("name", J.String(o.name)), J.Member("email", J.String(o.email))])
  }

  function DecodeOrganizer(v: J.Value, into: Organizer): Result<Organizer, DecodeError> {
    DecodeStruct(v, into, OrganizerNames, OrganizerSetters, "organizer")
  }

  lemma OrganizerRoundTrip(o: Organizer, into: Organizer)
    ensures DecodeOrganizer(EncodeOrganizer(o), into) == Ok(o)
  {
    var ms := EncodeOrganizer(o).members;
    var o1 := into.(name := o.name);
    DecodeMembersStep(ms, into, o1, OrganizerNames, OrganizerSetters, 0);
    DecodeMembersStep(ms[1..], o1, o, OrganizerNames, OrganizerSetters, 1);
  }

  // -------------------------------------------------------------- attendees

  const AttendeeNames := ["name", "email", "type"]

  function SetAttendeeName(v: J.Value, a: Attendee): Result<Attendee, DecodeError> {
    var name :- DecodeString(v, a.name, "name");
    Ok(a.(name := name))
  }

  function SetAttendeeEmail(v: J.Value, a: Attendee): Result<Attendee, DecodeError> {
    var email :- DecodeString(v, a.email, "email");
    Ok(a.(email := email))
  }

  function SetAttendeeType(v: J.Value, a: Attendee): Result<Attendee, DecodeError> {
    var kind :- DecodeString(v, a.kind, "type");
    Ok(a.(kind := kind))
  }

  /** The setters of the fields, in the order of their names. */
  const AttendeeSetters: seq<Setter<Attendee>> := [
    SetAttendeeName,
    SetAttendeeEmail,
    SetAttendeeType
  ]

  function EncodeAttendee(a: Attendee): J.Value {
    J.Object([
      J.Member("name", J.String(a.name)),
      J.Member("email", J.String(a.email)),
      J.Member("type", J.String(a.kind))])
  }

  const ZeroAttendee := Attendee("", "", "")

  function DecodeAttendee(v: J.Value, into: Attendee): Result<Attendee, DecodeError> {
    DecodeStruct(v, into, AttendeeNames, AttendeeSetters, "attendee")
  }

  lemma AttendeeRoundTrip(a: Attendee, into: Attendee)
    ensures DecodeAttendee(EncodeAttendee(a), into) == Ok(a)
  {
    var ms := EncodeAttendee(a).members;
    var a1 := into.(name := a.name);
    var a2 := a1.(email := a.email);
    DecodeMembersStep(ms, into, a1, AttendeeNames, AttendeeSetters, 0);
    DecodeMembersStep(ms[1..], a1, a2, AttendeeNames, AttendeeSetters, 1);
    DecodeMembersStep(ms[2..], a2, a, AttendeeNames, AttendeeSetters, 2);
  }

  // ----------------------------------------------------------------- slices

  /** A nil slice is written as `null`, any other as an array. */
  function EncodeAttendees(s: Slice<Attendee>): J.Value {
    match s
    case Nil => J.Null
    case Elems(items) => J.Array(seq(|items|, i requires 0 <= i < |items| => EncodeAttendee(items[i])))
  }

  /** Element `i` of the array is read into element `i` of the slice when
      the slice has one, else into a zero `Attendee`; the slice ends up as
      long as the array. */
  function DecodeAttendeeItems(vs: seq<J.Value>, prior: seq<Attendee>): Result<seq<Attendee>, DecodeError> {
    if vs == [] then Ok([])
    else
      var a :- DecodeAttendee(vs[0], if prior == [] then ZeroAttendee else prior[0]);
      var more :- DecodeAttendeeItems(vs[1..], if prior == [] then [] else prior[1..]);
      Ok([a] + more)
  }

  /** `null` makes the slice nil; an array (even an empty one) makes it
      non-nil. */
  function DecodeAttendees(v: J.Value, into: Slice<Attendee>): Result<Slice<Attendee>, DecodeError> {
    match v
    case Null => Ok(Nil)
    case Array(vs) =>
      var items :- DecodeAttendeeItems(vs, Items(into));
      Ok(Elems(items))
    case _ => Err(TypeMismatch("attendees"))
  }

  lemma {:induction false} AttendeeItemsRoundTrip(items: seq<Attendee>, prior: seq<Attendee>)
    ensures DecodeAttendeeItems(seq(|items|, i requires 0 <= i < |items| => EncodeAttendee(items[i])), prior) == Ok(items)
  {
    var vs := seq(|items|, i requires 0 <= i < |items| => EncodeAttendee(items[i]));
    if items != [] {
      AttendeeRoundTrip(items[0], if prior == [] then ZeroAttendee else prior[0]);
      assert vs[1..] == seq(|items[1..]|, i requires 0 <= i < |items[1..]| => EncodeAttendee(items[1..][i]));
      AttendeeItemsRoundTrip(items[1..], if prior == [] then [] else prior[1..]);
      assert [items[0]] + items[1..] == items;
    }
  }

  lemma AttendeesRoundTrip(s: Slice<Attendee>, into: Slice<Attendee>)
    ensures DecodeAttendees(EncodeAttendees(s), into) == Ok(s)
  {
    if s.Elems? {
      AttendeeItemsRoundTrip(s.items, Items(into));
    }
  }

  // ----------------------------------------------------------------- events

  const EventNames := ["id", "subject", "isAllDay", "start", "end", "location", "organizer", "attendees"]

  function SetEventId(v: J.Value, e: CalendarEvent): Result<CalendarEvent, DecodeError> {
    var id :- DecodeString(v, e.id, "id");
    Ok(e.(id := id))
  }

  function SetEventSubject(v: J.Value, e: CalendarEvent): Result<CalendarEvent, DecodeError> {
    var subject :- DecodeString(v, e.subject, "subject");
    Ok(e.(subject := subject))
  }

  function SetEventIsAllDay(v: J.Value, e: CalendarEvent): Result<CalendarEvent, DecodeError> {
    var isAllDay :- DecodeBool(v, e.isAllDay, "isAllDay");
    Ok(e.(isAllDay := isAllDay))
  }

  function SetEventStart(v: J.Value, e: CalendarEvent): Result<CalendarEvent, DecodeError> {
    var start :- DecodeTime(v, e.start);
    Ok(e.(start := start))
  }

  function SetEventEnd(v: J.Value, e: CalendarEvent): Result<CalendarEvent, DecodeError> {
    var end :- DecodeTime(v, e.end);
    Ok(e.(end := end))
  }

  function SetEventLocation(v: J.Value, e: CalendarEvent): Result<CalendarEvent, DecodeError> {
    var location :- DecodeString(v, e.location, "location");
    Ok(e.(location := location))
  }

  function SetEventOrganizer(v: J.Value, e: CalendarEvent): Result<CalendarEvent, DecodeError> {
    var organizer :- DecodeOrganizer(v, e.organizer);
    Ok(e.(organizer := organizer))
  }

  function SetEventAttendees(v: J.Value, e: CalendarEvent): Result<CalendarEvent, DecodeError> {
    var attendees :- DecodeAttendees(v, e.attendees);
    Ok(e.(attendees := attendees))
  }

  /** The setters of the fields, in the order of their names. */
  const EventSetters: seq<Setter<CalendarEvent>> := [
    SetEventId,
    SetEventSubject,
    SetEventIsAllDay,
    SetEventStart,
    SetEventEnd,
    SetEventLocation,
    SetEventOrganizer,
    SetEventAttendees
  ]

  /** The members of an event, in the order of the struct's fields. */
  function EventMembers(e: CalendarEvent, start: J.Value, end: J.Value): seq<J.Member> {
    [ J.Member("id", J.String(e.id)),
      J.Member("subject", J.String(e.subject)),
      J.Member("isAllDay", J.Bool(e.isAllDay)),
      J.Member("start", start),
      J.Member("end", end),
      J.Member("location", J.String(e.location)),
      J.Member("organizer", EncodeOrganizer(e.organizer)),
      J.Member("attendees", EncodeAttendees(e.attendees)) ]
  }

  /** An event; the first time that cannot be written is the error. */
  function EncodeEvent(e: CalendarEvent): Result<J.Value, EncodeError> {
    var start :- EncodeTime(e.start);
    var end :- EncodeTime(e.end);
    Ok(J.Object(EventMembers(e, start, end)))
  }

  const ZeroEvent := CalendarEvent("", "", false, ZeroTime, ZeroTime, "", Organizer("", ""), Nil)

  function DecodeEvent(v: J.Value, into: CalendarEvent): Result<CalendarEvent, DecodeError> {
    DecodeStruct(v, into, EventNames, EventSetters, "event")
  }

  /** Times that survive the text: four-digit years, whole-minute zones. */
  predicate Portable(t: Time) {
    R.InFourDigitYears(t) && R.WholeMinuteOffset(t.offset)
  }

  /** The first `k` fields of `e`, the others of `into`. */
  function PartEvent(k: nat, e: CalendarEvent, into: CalendarEvent): CalendarEvent {
    CalendarEvent(
      if 0 < k then e.id else into.id,
      if 1 < k then e.subject else into.subject,
      if 2 < k then e.isAllDay else into.isAllDay,
      if 3 < k then e.start else into.start,
      if 4 < k then e.end else into.end,
      if 5 < k then e.location else into.location,
      if 6 < k then e.organizer else into.organizer,
      if 7 < k then e.attendees else into.attendees)
  }

  lemma EventSetterRead(k: nat, e: CalendarEvent, into: CalendarEvent, start: J.Value, end: J.Value)
    requires k < 8
    requires forall t :: DecodeTime(start, t) == Ok(e.start)
    requires forall t :: DecodeTime(end, t) == Ok(e.end)
    ensures EventMembers(e, start, end)[k].key == EventNames[k]
    ensures EventSetters[k](EventMembers(e, start, end)[k].value, PartEvent(k, e, into)) == Ok(PartEvent(k + 1, e, into))
  {
    var acc := PartEvent(k, e, into);
    if k == 3 {
      assert DecodeTime(start, acc.start) == Ok(e.start);
    } else if k == 4 {
      assert DecodeTime(end, acc.end) == Ok(e.end);
    } else if k == 6 {
      OrganizerRoundTrip(e.organizer, acc.organizer);
    } else if k == 7 {
      AttendeesRoundTrip(e.attendees, acc.attendees);
    }
  }

  /** The members of a printed event, read into any event, give it back. */
  lemma EventMembersRead(e: CalendarEvent, into: CalendarEvent, start: J.Value, end: J.Value)
    requires forall t :: DecodeTime(start, t) == Ok(e.start)
    requires forall t :: DecodeTime(end, t) == Ok(e.end)
    ensures DecodeMembers(EventMembers(e, start, end), into, EventNames, EventSetters) == Ok(e)
  {
    var ms := EventMembers(e, start, end);
    var part := (k: nat) => PartEvent(k, e, into);
    assert ReadInOrder(ms, EventNames, EventSetters, 0, part) by {
      forall k | 0 <= k < |ms|
        ensures ms[k].key == EventNames[k]
        ensures EventSetters[0 + k](ms[k].value, part(0 + k)) == Ok(part(0 + k + 1))
      {
        EventSetterRead(k, e, into, start, end);
      }
    }
    assert Distinct(EventNames);
    DecodeMembersInOrder(ms, EventNames, EventSetters, 0, part);
    assert part(0) == into && part(8) == e;
  }

  lemma EventRoundTrip(e: CalendarEvent, into: CalendarEvent)
    requires Portable(e.start) && Portable(e.end)
    ensures EncodeEvent(e).Ok?
    ensures DecodeEvent(EncodeEvent(e).value, into) == Ok(e)
  {
    TimeRoundTrip(e.start, into.start);
    TimeRoundTrip(e.end, into.end);
    var start := EncodeTime(e.start).value;
    var end := EncodeTime(e.end).value;
    forall t ensures DecodeTime(start, t) == Ok(e.start) {
      TimeRoundTrip(e.start, t);
    }
    forall t ensures DecodeTime(end, t) == Ok(e.end) {
      TimeRoundTrip(e.end, t);
    }
    EventMembersRead(e, into, start, end);
  }

  lemma {:induction false} EventItemsRoundTrip(items: seq<CalendarEvent>, prior: seq<CalendarEvent>)
    requires forall e :: e in items ==> Portable(e.start) && Portable(e.end)
    ensures EncodeEventItems(items).Ok?
    ensures DecodeEventItems(EncodeEventItems(items).value, prior) == Ok(items)
  {
    if items != [] {
      EventRoundTrip(items[0], if prior == [] then ZeroEvent else prior[0]);
      assert forall e :: e in items[1..] ==> e in items;
      EventItemsRoundTrip(items[1..], if prior == [] then [] else prior[1..]);
      var vs := EncodeEventItems(items).value;
      assert vs[1..] == EncodeEventItems(items[1..]).value;
      assert [items[0]] + items[1..] == items;
    }
  }

  lemma EventsRoundTrip(s: Slice<CalendarEvent>, into: Slice<CalendarEvent>)
    requires forall e :: e in Items(s) ==> Portable(e.start) && Portable(e.end)
    ensures EncodeEvents(s).Ok?
    ensures DecodeEvents(EncodeEvents(s).value, into) == Ok(s)
  {
    if s.Elems? {
      EventItemsRoundTrip(s.items, Items(into));
    }
  }

  /** Encoding fails exactly when one of the events has a time
      `Time.MarshalJSON` refuses. */
  lemma {:induction false} EncodeEventItemsOk(items: seq<CalendarEvent>)
    ensures EncodeEventItems(items).Ok? <==> forall e :: e in items ==> WritableTime(e.start) && WritableTime(e.end)
    ensures EncodeEventItems(items).Ok? ==> |EncodeEventItems(items).value| == |items|
  {
    if items != [] {
      EncodeTimeOk(items[0].start);
      EncodeTimeOk(items[0].end);
      EncodeEventItemsOk(items[1..]);
      assert items == [items[0]] + items[1..];
      assert forall e :: e in items <==> e == items[0] || e in items[1..];
    }
  }

  // ------------------------------------------------------------ event slices

  /** The events of a non-nil slice, the first refused time stopping the
      encoding. */
  function EncodeEventItems(items: seq<CalendarEvent>): Result<seq<J.Value>, EncodeError> {
    if items == [] then Ok([])
    else
      var v :- EncodeEvent(items[0]);
      var more :- EncodeEventItems(items[1..]);
      Ok([v] + more)
  }

  function EncodeEvents(s: Slice<CalendarEvent>): Result<J.Value, EncodeError> {
    match s
    case Nil => Ok(J.Null)
    case Elems(items) =>
      var vs :- EncodeEventItems(items);
      Ok(J.Array(vs))
  }

  /** As for attendees: element `i` goes into the slice's element `i` when
      there is one, else into a zero event. */
  function DecodeEventItems(vs: seq<J.Value>, prior: seq<CalendarEvent>): Result<seq<CalendarEvent>, DecodeError> {
    if vs == [] then Ok([])
    else
      var e :- DecodeEvent(vs[0], if prior == [] then ZeroEvent else prior[0]);
      var more :- DecodeEventItems(vs[1..], if prior == [] then [] else prior[1..]);
      Ok([e] + more)
  }

  function DecodeEvents(v: J.Value, into: Slice<CalendarEvent>): Result<Slice<CalendarEvent>, DecodeError> {
    match v
    case Null => Ok(Nil)
    case Array(vs) =>
      var items :- DecodeEventItems(vs, Items(into));
      Ok(Elems(items))
    case _ => Err(TypeMismatch("events"))
  }

  // ----------------------------------------------------------------- window

  const WindowNames := ["start", "end"]

  function SetWindowStart(v: J.Value, w: TimeWindow): Result<TimeWindow, DecodeError> {
    var start :- DecodeTime(v, w.start);
    Ok(w.(start := start))
  }

  function SetWindowEnd(v: J.Value, w: TimeWindow): Result<TimeWindow, DecodeError> {
    var end :- DecodeTime(v, w.end);
    Ok(w.(end := end))
  }

  const WindowSetters: seq<Setter<TimeWindow>> := [SetWindowStart, SetWindowEnd]

  function EncodeWindow(w: TimeWindow): Result<J.Value, EncodeError> {
    var start :- EncodeTime(w.start);
    var end :- EncodeTime(w.end);
    Ok(J.Object([J.Member("start", start), J.Member("end", end)]))
  }

  function DecodeWindow(v: J.Value, into: TimeWindow): Result<TimeWindow, DecodeError> {
    DecodeStruct(v, into, WindowNames, WindowSetters, "window")
  }

  lemma WindowRoundTrip(w: TimeWindow, into: TimeWindow)
    requires Portable(w.start) && Portable(w.end)
    ensures EncodeWindow(w).Ok?
    ensures DecodeWindow(EncodeWindow(w).value, into) == Ok(w)
  {
    TimeRoundTrip(w.start, into.start);
    TimeRoundTrip(w.end, into.end);
    var ms := EncodeWindow(w).value.members;
    var w1 := into.(start := w.start);
    DecodeMembersStep(ms, into, w1, WindowNames, WindowSetters, 0);
    DecodeMembersStep(ms[1..], w1, w, WindowNames, WindowSetters, 1);
  }

  // ----------------------------------------------------------------- output

  const OutputNames := ["version", "timezone", "window", "events"]

  function SetOutputVersion(v: J.Value, o: CLIOutput): Result<CLIOutput, DecodeError> {
    var version :- DecodeInt(v, o.version, "version");
    Ok(o.(version := version))
  }

  function SetOutputTimezone(v: J.Value, o: CLIOutput): Result<CLIOutput, DecodeError> {
    var timezone :- DecodeString(v, o.timezone, "timezone");
    Ok(o.(timezone := timezone))
  }

  function SetOutputWindow(v: J.Value, o: CLIOutput): Result<CLIOutput, DecodeError> {
    var window :- DecodeWindow(v, o.window);
    Ok(o.(window := window))
  }

  function SetOutputEvents(v: J.Value, o: CLIOutput): Result<CLIOutput, DecodeError> {
    var events :- DecodeEvents(v, o.events);
    Ok(o.(events := events))
  }

  const OutputSetters: seq<Setter<CLIOutput>> := [SetOutputVersion, SetOutputTimezone, SetOutputWindow, SetOutputEvents]

  /** The output as a JSON value: window first, then the events, as the
      fields are written in order. */
  function EncodeOutput(o: CLIOutput): Result<J.Value, EncodeError> {
    var window :- EncodeWindow(o.window);
    var events :- EncodeEvents(o.events);
    Ok(J.Object(OutputMembers(o, window, events)))
  }

  function OutputMembers(o: CLIOutput, window: J.Value, events: J.Value): seq<J.Member> {
    [ J.Member("version", J.Number(o.version)),
      J.Member("timezone", J.String(o.timezone)),
      J.Member("window", window),
      J.Member("events", events) ]
  }

  /** What `json.Unmarshal` starts from: `var parsed schema.CLIOutput`. */
  const ZeroOutput := CLIOutput(0, "", TimeWindow(ZeroTime, ZeroTime), Nil)

  function DecodeOutput(v: J.Value, into: CLIOutput): Result<CLIOutput, DecodeError> {
    DecodeStruct(v, into, OutputNames, OutputSetters, "output")
  }

  /** `FormatJSON`: the encoded output followed by a newline. */
  function Marshal(o: CLIOutput): Result<string, EncodeError> {
    var v :- EncodeOutput(o);
    Ok(J.Print(v) + "\n")
  }

  /** `json.Unmarshal` into a zero `CLIOutput`: text that is not JSON is a
      syntax error before anything is decoded. */
  function Unmarshal(text: string): Result<CLIOutput, DecodeError> {
    match J.Read(text)
    case None => Err(SyntaxError)
    case Some(v) => DecodeOutput(v, ZeroOutput)
  }

  /** An output all of whose times `Time.MarshalJSON` accepts. */
  predicate WritableOutput(o: CLIOutput) {
    && WritableTime(o.window.start) && WritableTime(o.window.end)
    && forall e :: e in Items(o.events) ==> WritableTime(e.start) && WritableTime(e.end)
  }

  /** An output that survives the text unchanged: a 64-bit version, and
      times with four-digit years and whole-minute zones. */
  predicate PortableOutput(o: CLIOutput) {
    && Int64Min <= o.version <= Int64Max
    && Portable(o.window.start) && Portable(o.window.end)
    && forall e :: e in Items(o.events) ==> Portable(e.start) && Portable(e.end)
  }

  /** `FormatJSON` fails exactly when some time cannot be written. */
  lemma MarshalOk(o: CLIOutput)
    ensures Marshal(o).Ok? <==> WritableOutput(o)
  {
    EncodeTimeOk(o.window.start);
    EncodeTimeOk(o.window.end);
    EncodeEventItemsOk(Items(o.events));
  }

  /** The first `k` fields of `o`, the others of `into`. */
  function PartOutput(k: nat, o: CLIOutput, into: CLIOutput): CLIOutput {
    CLIOutput(
      if 0 < k then o.version else into.version,
      if 1 < k then o.timezone else into.timezone,
      if 2 < k then o.window else into.window,
      if 3 < k then o.events else into.events)
  }

  lemma OutputSetterRead(k: nat, o: CLIOutput, into: CLIOutput, window: J.Value, events: J.Value)
    requires k < 4
    requires Int64Min <= o.version <= Int64Max
    requires DecodeWindow(window, into.window) == Ok(o.window)
    requires DecodeEvents(events, into.events) == Ok(o.events)
    ensures OutputMembers(o, window, events)[k].key == OutputNames[k]
    ensures OutputSetters[k](OutputMembers(o, window, events)[k].value, PartOutput(k, o, into)) == Ok(PartOutput(k + 1, o, into))
  {
  }

  lemma OutputMembersRead(o: CLIOutput, into: CLIOutput, window: J.Value, events: J.Value)
    requires Int64Min <= o.version <= Int64Max
    requires DecodeWindow(window, into.window) == Ok(o.window)
    requires DecodeEvents(events, into.events) == Ok(o.events)
    ensures DecodeOutput(J.Object(OutputMembers(o, window, events)), into) == Ok(o)
  {
    var ms := OutputMembers(o, window, events);
    var part := (k: nat) => PartOutput(k, o, into);
    assert ReadInOrder(ms, OutputNames, OutputSetters, 0, part) by {
      forall k | 0 <= k < |ms|
        ensures ms[k].key == OutputNames[k]
        ensures OutputSetters[0 + k](ms[k].value, part(0 + k)) == Ok(part(0 + k + 1))
      {
        OutputSetterRead(k, o, into, window, events);
      }
    }
    assert Distinct(OutputNames);
    DecodeMembersInOrder(ms, OutputNames, OutputSetters, 0, part);
    assert part(0) == into && part(4) == o;
  }

  /** The printed output reads back as the same output: same version,
      timezone and window, and the same events, a nil list staying nil and
      an empty one staying empty. */
  lemma RoundTrip(o: CLIOutput)
    requires PortableOutput(o)
    ensures Marshal(o).Ok?
    ensures Unmarshal(Marshal(o).value) == Ok(o)
  {
    WindowRoundTrip(o.window, ZeroOutput.window);
    EventsRoundTrip(o.events, ZeroOutput.events);
    var v := EncodeOutput(o).value;
    OutputMembersRead(o, ZeroOutput, EncodeWindow(o.window).value, EncodeEvents(o.events).value);
    J.ReadPrinted(v, "\n");
  }

  /** What the schema's own round-trip checks look at: version and event
      count survive, and an empty event list stays a present, empty list. */
  lemma RoundTripKeepsChecks(o: CLIOutput)
    requires PortableOutput(o)
    ensures Marshal(o).Ok? && Unmarshal(Marshal(o).value).Ok?
    ensures Unmarshal(Marshal(o).value).value.version == o.version
    ensures |Items(Unmarshal(Marshal(o).value).value.events)| == |Items(o.events)|
    ensures o.events == Elems([]) ==> Unmarshal(Marshal(o).value).value.events == Elems([])
    ensures WellFormed(o) ==> WellFormed(Unmarshal(Marshal(o).value).value)
  {
    RoundTrip(o);
  }
}
