/** The two timestamp layouts the calendar code reads and writes, following
    Go's `time.Parse` / `time.ParseInLocation` / `Time.Format`:
    - `2006-01-02T15:04:05Z07:00` (`time.RFC3339`, section 5.6 of RFC 3339):
      a wall-clock date and time with an explicit offset, `Z` or `+hh:mm`;
    - `2006-01-02T15:04:05`: the same without an offset, read in a given zone.
    In both, a fractional second (`.` or `,` and digits) may follow the seconds;
    its first nine digits are kept. */
module Rfc3339 {
  import opened Wrappers
  import opened Chrono

  // ---------------------------------------------------------------- digits

  predicate IsDigit(c: char) {
    '0' <= c <= '9'
  }

  predicate AllDigits(s: string) {
    forall i :: 0 <= i < |s| ==> IsDigit(s[i])
  }

  function DigitValue(c: char): nat
    requires IsDigit(c)
  {
    c as int - '0' as int
  }

  function DigitChar(n: nat): (c: char)
    requires n < 10
    ensures IsDigit(c) && DigitValue(c) == n
  {
    ('0' as int + n) as char
  }

  /** The value of a string of decimal digits, most significant first. */
  function DigitsValue(s: string): nat
    requires AllDigits(s)
  {
    if s == [] then 0 else DigitsValue(s[..|s| - 1]) * 10 + DigitValue(s[|s| - 1])
  }

  function Pow10(k: nat): nat {
    if k == 0 then 1 else 10 * Pow10(k - 1)
  }

  /** The shortest decimal text of `n`. */
  function Decimal(n: nat): (r: string)
    ensures AllDigits(r) && 1 <= |r|
  {
    if n < 10 then [DigitChar(n)] else Decimal(n / 10) + [DigitChar(n % 10)]
  }

  function Zeros(k: nat): (r: string)
    ensures |r| == k && AllDigits(r)
  {
    if k == 0 then [] else Zeros(k - 1) + ['0']
  }

  /** `n` in decimal, left-padded with zeros to at least `width` digits, as Go's
      internal `appendInt(b, n, width)` writes it. */
  function Pad(n: nat, width: nat): (r: string)
    ensures AllDigits(r)
  {
    var d := Decimal(n);
    if |d| >= width then d else Zeros(width - |d|) + d
  }

  lemma {:induction false} DecimalValue(n: nat)
    ensures DigitsValue(Decimal(n)) == n
  {
    if n >= 10 {
      DecimalValue(n / 10);
      var d := Decimal(n);
      assert d[..|d| - 1] == Decimal(n / 10);
    }
  }

  lemma {:induction false} DecimalLength(n: nat, width: nat)
    requires 1 <= width && n < Pow10(width)
    ensures |Decimal(n)| <= width
  {
    if n >= 10 {
      DecimalLength(n / 10, width - 1);
    }
  }

  lemma {:induction false} LeadingZeroValue(s: string)
    requires AllDigits(s)
    ensures AllDigits(['0'] + s) && DigitsValue(['0'] + s) == DigitsValue(s)
    decreases |s|
  {
    if s != [] {
      var s' := s[..|s| - 1];
      assert (['0'] + s)[..|s|] == ['0'] + s';
      LeadingZeroValue(s');
    }
  }

  lemma {:induction false} ZerosValue(k: nat, s: string)
    requires AllDigits(s)
    ensures AllDigits(Zeros(k) + s) && DigitsValue(Zeros(k) + s) == DigitsValue(s)
    decreases k
  {
    if k == 0 {
      assert Zeros(k) + s == s;
    } else {
      assert Zeros(k) + s == Zeros(k - 1) + (['0'] + s);
      LeadingZeroValue(s);
      ZerosValue(k - 1, ['0'] + s);
    }
  }

  /** Padding is undone by reading the digits back, and a number below
      `10^width` pads to exactly `width` digits. */
  lemma PadValue(n: nat, width: nat)
    requires 1 <= width && n < Pow10(width)
    ensures |Pad(n, width)| == width
    ensures DigitsValue(Pad(n, width)) == n
  {
    DecimalValue(n);
    DecimalLength(n, width);
    var d := Decimal(n);
    if |d| < width {
      ZerosValue(width - |d|, d);
    }
  }

  // ------------------------------------------------------ fractional seconds

  /** `v` followed by `k` zero digits. */
  function Scale(v: nat, k: nat): nat
    decreases k
  {
    if k == 0 then v else Scale(v * 10, k - 1)
  }

  lemma {:induction false} ScaleStep(v: nat, k: nat)
    ensures Scale(v, k + 1) == Scale(v, k) * 10
    decreases k
  {
    if k > 0 {
      ScaleStep(v * 10, k - 1);
    }
  }

  /** Nanoseconds denoted by the digits after the separator: the first nine
      are read and scaled, the rest are ignored (Go's `parseNanoseconds`). */
  function FractionNanos(digits: string): (r: nat)
    requires AllDigits(digits)
  {
    var used := if |digits| <= 9 then digits else digits[..9];
    Scale(DigitsValue(used), 9 - |used|)
  }

  /** Drops trailing zero digits. */
  function TrimZeros(s: string): (r: string)
    ensures |r| <= |s| && r == s[..|r|]
  {
    if s != [] && s[|s| - 1] == '0' then TrimZeros(s[..|s| - 1]) else s
  }

  lemma {:induction false} TrimZerosValue(s: string)
    requires AllDigits(s)
    ensures AllDigits(TrimZeros(s))
    ensures Scale(DigitsValue(TrimZeros(s)), |s| - |TrimZeros(s)|) == DigitsValue(s)
    decreases |s|
  {
    if s != [] && s[|s| - 1] == '0' {
      var s' := s[..|s| - 1];
      TrimZerosValue(s');
      var t := TrimZeros(s');
      ScaleStep(DigitsValue(t), |s'| - |t|);
    }
  }

  /** The fraction Go's `.999999999` layout element writes for `nanos`:
      nine digits with trailing zeros dropped. */
  function FractionText(nanos: nat): string {
    TrimZeros(Pad(nanos, 9))
  }

  lemma FractionRoundTrip(nanos: nat)
    requires 0 < nanos < NanosPerSecond
    ensures AllDigits(FractionText(nanos))
    ensures 1 <= |FractionText(nanos)| <= 9
    ensures FractionNanos(FractionText(nanos)) == nanos
  {
    assert Pow10(9) == NanosPerSecond;
    PadValue(nanos, 9);
    TrimZerosValue(Pad(nanos, 9));
    var t := FractionText(nanos);
    if t == [] {
      ScaleOfZero(9);
    }
  }

  lemma {:induction false} ScaleOfZero(k: nat)
    ensures Scale(0, k) == 0
  {
    if k > 0 {
      ScaleOfZero(k - 1);
    }
  }

  /** Length of the run of digits at the start of `s`. */
  function DigitRun(s: string): (n: nat)
    ensures n <= |s| && AllDigits(s[..n])
    ensures n < |s| ==> !IsDigit(s[n])
  {
    if s != [] && IsDigit(s[0]) then
      var n := 1 + DigitRun(s[1..]);
      assert s[..n] == [s[0]] + s[1..][..n - 1];
      n
    else 0
  }

  lemma {:induction false} DigitRunOfDigits(digits: string, rest: string)
    requires AllDigits(digits)
    requires rest == [] || !IsDigit(rest[0])
    ensures DigitRun(digits + rest) == |digits|
    decreases |digits|
  {
    if digits == [] {
      assert digits + rest == rest;
    } else {
      assert (digits + rest)[1..] == digits[1..] + rest;
      DigitRunOfDigits(digits[1..], rest);
    }
  }

  // ---------------------------------------------------------- layout elements

  /** The elements of Go's reference-time layouts that the calendar code uses. */
  datatype Element =
    | LongYear          // `2006`: exactly four digits
    | ZeroMonth         // `01`: two digits
    | ZeroDay           // `02`: two digits
    | Hour              // `15`: one or two digits when read, two when written
    | ZeroMinute        // `04`
    | ZeroSecond        // `05`
    | FracSecond9       // `.999999999`: optional, trailing zeros dropped
    | ISO8601ColonTZ    // `Z07:00`
    | Literal(c: char)

  /** `2006-01-02T15:04:`, everything before the seconds. */
  const DateHourMinute: seq<Element> :=
    [LongYear, Literal('-'), ZeroMonth, Literal('-'), ZeroDay, Literal('T'),
     Hour, Literal(':'), ZeroMinute, Literal(':')]

  /** `2006-01-02T15:04:05`, the zone-less form Graph returns. */
  const DateTimeLayout: seq<Element> := DateHourMinute + [ZeroSecond]

  /** `time.RFC3339`. */
  const RFC3339Layout: seq<Element> := DateTimeLayout + [ISO8601ColonTZ]

  /** `time.RFC3339Nano`, the layout `encoding/json` writes times in. */
  const RFC3339NanoLayout: seq<Element> := DateTimeLayout + [FracSecond9, ISO8601ColonTZ]

  /** Elements whose reading does not depend on the text that follows them. */
  predicate Simple(e: Element) {
    !e.ZeroSecond? && !e.FracSecond9?
  }

  // ------------------------------------------------------------------ parsing

  /** What parsing has read so far; `offset` is set once a zone is read. */
  datatype Fields = Fields(year: int, month: int, day: int, hour: int, minute: int,
                           second: int, nanos: int, offset: Option<int>)

  /** The values of fields a layout does not mention: January 1st, midnight. */
  const Unset := Fields(0, 1, 1, 0, 0, 0, 0, None)

  /** Go's `getnum`: a leading digit and, if one follows, a second; with
      `fixed` the second digit is required. */
  function GetNum(s: string, fixed: bool): Option<(nat, string)> {
    if |s| == 0 || !IsDigit(s[0]) then None
    else if |s| == 1 || !IsDigit(s[1]) then
      if fixed then None else Some((DigitValue(s[0]), s[1..]))
    else Some((DigitValue(s[0]) * 10 + DigitValue(s[1]), s[2..]))
  }

  /** A separator `.` or `,` followed by a digit. */
  predicate StartsFraction(s: string) {
    |s| >= 2 && (s[0] == '.' || s[0] == ',') && IsDigit(s[1])
  }

  /** Where a fraction at the start of `s` ends: after every digit that
      follows the separator. */
  function FractionEnd(s: string): (n: nat)
    requires StartsFraction(s)
    ensures 2 <= n <= |s| && AllDigits(s[1..n])
    ensures n < |s| ==> !IsDigit(s[n])
  {
    var run := DigitRun(s[1..]);
    assert s[1..][..run] == s[1..1 + run];
    1 + run
  }

  /** The `Z07:00` element: `Z`, or a sign, two digits of hours, a colon and
      two digits of minutes. Go admits hours up to 24 and minutes up to 60. */
  function ParseZone(s: string): Option<(int, string)> {
    if |s| >= 1 && s[0] == 'Z' then Some((0, s[1..]))
    else if |s| < 6 || s[3] != ':' then None
    else
      match (GetNum(s[1..3], true), GetNum(s[4..6], true))
      case (Some((hh, _)), Some((mm, _))) =>
        var magnitude: int := hh * 3600 + mm * 60;
        if hh > 24 || mm > 60 then None
        else if s[0] == '+' then Some((magnitude, s[6..]))
        else if s[0] == '-' then Some((-magnitude, s[6..]))
        else None
      case _ => None
  }

  /** Whether the next element that is not literal text is `.999999999`
      (what Go's `nextStdChunk` finds in the rest of the layout). */
  predicate NextIsFraction(layout: seq<Element>) {
    if layout == [] then false
    else if layout[0].Literal? then NextIsFraction(layout[1..])
    else layout[0] == FracSecond9
  }

  /** Reads element `e` from the start of `s`; `following` is the rest of the
      layout. Months, hours, minutes and seconds are range-checked here, the
      day once all fields are known. After the seconds, a fraction the layout
      does not ask for is read anyway. */
  function ParseElement(e: Element, following: seq<Element>, s: string, f: Fields): Option<(Fields, string)> {
    match e
    case Literal(c) => if |s| > 0 && s[0] == c then Some((f, s[1..])) else None
    case LongYear =>
      if |s| < 4 || !AllDigits(s[..4]) then None
      else Some((f.(year := DigitsValue(s[..4])), s[4..]))
    case ZeroMonth =>
      (match GetNum(s, true)
       case None => None
       case Some((month, rest)) => if 1 <= month <= 12 then Some((f.(month := month), rest)) else None)
    case ZeroDay =>
      (match GetNum(s, true)
       case None => None
       case Some((day, rest)) => Some((f.(day := day), rest)))
    case Hour =>
      (match GetNum(s, false)
       case None => None
       case Some((hour, rest)) => if hour < 24 then Some((f.(hour := hour), rest)) else None)
    case ZeroMinute =>
      (match GetNum(s, true)
       case None => None
       case Some((minute, rest)) => if minute < 60 then Some((f.(minute := minute), rest)) else None)
    case ZeroSecond =>
      (match GetNum(s, true)
       case None => None
       case Some((second, rest)) =>
         if second >= 60 then None
         else if StartsFraction(rest) && !NextIsFraction(following) then
           var n := FractionEnd(rest);
           Some((f.(second := second, nanos := FractionNanos(rest[1..n])), rest[n..]))
         else Some((f.(second := second), rest)))
    case FracSecond9 =>
      if StartsFraction(s) then
        var n := FractionEnd(s);
        Some((f.(nanos := FractionNanos(s[1..n])), s[n..]))
      else Some((f, s))
    case ISO8601ColonTZ =>
      (match ParseZone(s)
       case None => None
       case Some((offset, rest)) => Some((f.(offset := Some(offset)), rest)))
  }

  /** Reads the elements of `layout` one after another. */
  function ParseElements(layout: seq<Element>, s: string, f: Fields): Option<(Fields, string)>
    decreases |layout|
  {
    if layout == [] then Some((f, s))
    else
      match ParseElement(layout[0], layout[1..], s, f)
      case None => None
      case Some((f', rest)) => ParseElements(layout[1..], rest, f')
  }

  /** The instant the fields name: the written offset if there is one,
      otherwise `loc`'s. */
  function FieldsTime(f: Fields, loc: Zone): (t: Time)
    requires ValidDate(Date(f.year, f.month, f.day))
    ensures t.offset == if f.offset.Some? then f.offset.value else loc.offset
  {
    var local := (DaysFromCivil(Date(f.year, f.month, f.day)) * SecondsPerDay
                  + f.hour * 3600 + f.minute * 60 + f.second) * NanosPerSecond + f.nanos;
    var offset := if f.offset.Some? then f.offset.value else loc.offset;
    Time(local - offset * NanosPerSecond, offset)
  }

  /** `time.ParseInLocation(layout, s, loc)`; `time.Parse` passes UTC. Text
      left over after the layout is an error, and so is a day its month does
      not have. */
  function Parse(layout: seq<Element>, s: string, loc: Zone): Option<Time> {
    match ParseElements(layout, s, Unset)
    case None => None
    case Some((f, rest)) =>
      if rest != [] || !ValidDate(Date(f.year, f.month, f.day)) then None
      else Some(FieldsTime(f, loc))
  }

  /** `time.Parse(time.RFC3339, s)`. */
  function ParseRFC3339(s: string): Option<Time> {
    Parse(RFC3339Layout, s, UTC)
  }

  /** Go's layout parser is laxer than RFC 3339: the `15` element takes a
      single digit of hour... */
  lemma HourTakesOneDigit(following: seq<Element>, rest: string, f: Fields)
    requires rest == [] || !IsDigit(rest[0])
    ensures ParseElement(Hour, following, "9" + rest, f) == Some((f.(hour := 9), rest))
  {
    assert ("9" + rest)[1..] == rest;
  }

  /** ... a comma may stand for the decimal point of the seconds ... */
  lemma CommaStartsFraction(rest: string)
    ensures StartsFraction("," + "5" + rest)
  {
  }

  /** ... and a zone may have 24 hours or 60 minutes. */
  lemma ZoneHourUpTo24()
    ensures ParseZone("+24:00") == Some((24 * 3600, ""))
    ensures ParseZone("+01:60") == Some((3600 + 60 * 60, ""))
  {
    assert "+24:00"[1..3] == "24" && "+24:00"[4..6] == "00" && "+24:00"[6..] == "";
    assert "+01:60"[1..3] == "01" && "+01:60"[4..6] == "60" && "+01:60"[6..] == "";
  }

  // --------------------------------------------------------------- formatting

  /** The wall-clock reading of an instant in its own zone. */
  datatype Clock = Clock(date: Date, hour: int, minute: int, second: int, nanos: int)

  predicate ValidClock(c: Clock) {
    InRange(c) && ValidDate(c.date)
  }

  /** Every field within the range its layout element writes and reads; the
      day is checked against its month only when a time is built. */
  predicate InRange(c: Clock) {
    && 1 <= c.date.month <= 12 && 1 <= c.date.day <= 31
    && 0 <= c.hour < 24 && 0 <= c.minute < 60 && 0 <= c.second < 60
    && 0 <= c.nanos < NanosPerSecond
  }

  function WallClock(t: Time): (c: Clock)
    ensures ValidClock(c)
  {
    var sod := LocalSeconds(t) % SecondsPerDay;
    Clock(CivilFromDays(LocalDay(t)), sod / 3600, sod % 3600 / 60, sod % 3600 % 60, t.nanos % NanosPerSecond)
  }

  /** The year as Go's `2006` element writes it: at least four digits, with a
      minus sign before a negative year. */
  function YearText(year: int): string {
    if year < 0 then "-" + Pad(-year, 4) else Pad(year, 4)
  }

  /** Go's `Z07:00` element: `Z` for a zero offset, otherwise the sign and the
      offset truncated to whole minutes as `hh:mm`. */
  function OffsetText(offset: int): string {
    if offset == 0 then "Z"
    else
      var minutes := (if offset < 0 then -offset else offset) / 60;
      OffsetSign(offset) + Pad(minutes / 60, 2) + ":" + Pad(minutes % 60, 2)
  }

  /** Go takes the sign from the offset truncated to minutes, so an offset of
      less than a minute west of UTC is written with `+`. */
  function OffsetSign(offset: int): string {
    if offset <= -60 then "-" else "+"
  }

  /** The text element `e` writes for the wall clock `c` in a zone `offset`
      seconds east of UTC. */
  function FormatElement(e: Element, c: Clock, offset: int): string
    requires InRange(c)
  {
    match e
    case LongYear => YearText(c.date.year)
    case ZeroMonth => Pad(c.date.month, 2)
    case ZeroDay => Pad(c.date.day, 2)
    case Hour => Pad(c.hour, 2)
    case ZeroMinute => Pad(c.minute, 2)
    case ZeroSecond => Pad(c.second, 2)
    case FracSecond9 => if c.nanos == 0 then "" else "." + FractionText(c.nanos)
    case ISO8601ColonTZ => OffsetText(offset)
    case Literal(ch) => [ch]
  }

  function FormatElements(layout: seq<Element>, c: Clock, offset: int): string
    requires InRange(c)
  {
    if layout == [] then [] else FormatElement(layout[0], c, offset) + FormatElements(layout[1..], c, offset)
  }

  /** `t.Format(layout)`. */
  function Format(layout: seq<Element>, t: Time): string {
    FormatElements(layout, WallClock(t), t.offset)
  }

  /** `t.Format(time.RFC3339Nano)`. */
  function FormatRFC3339Nano(t: Time): string {
    Format(RFC3339NanoLayout, t)
  }

  /** The years RFC 3339 can write: four digits. */
  predicate InFourDigitYears(t: Time) {
    0 <= WallClock(t).date.year <= 9999
  }

  /** Offsets that `Z07:00` writes without loss: whole minutes, under a day. */
  predicate WholeMinuteOffset(offset: int) {
    offset % 60 == 0 && -SecondsPerDay < offset < SecondsPerDay
  }

  /** `t` with its sub-second part dropped (toward the past). */
  function TruncateToSecond(t: Time): (r: Time)
    ensures r.offset == t.offset
    ensures r.nanos <= t.nanos < r.nanos + NanosPerSecond
  {
    Time(t.nanos - t.nanos % NanosPerSecond, t.offset)
  }

  // ------------------------------------------------- reading back, element-wise

  /** The fields reading the text of `layout` for `c` sets: each element its
      own field, the fraction only when it was written. */
  function Overlay(layout: seq<Element>, c: Clock, offset: int, f: Fields): Fields {
    Fields(if LongYear in layout then c.date.year else f.year,
           if ZeroMonth in layout then c.date.month else f.month,
           if ZeroDay in layout then c.date.day else f.day,
           if Hour in layout then c.hour else f.hour,
           if ZeroMinute in layout then c.minute else f.minute,
           if ZeroSecond in layout then c.second else f.second,
           if FracSecond9 in layout && c.nanos != 0 then c.nanos else f.nanos,
           if ISO8601ColonTZ in layout then Some(offset) else f.offset)
  }

  /** What the text `after` written behind element `e` must avoid so that
      reading `e` stops where its own text ends. */
  predicate Clear(e: Element, following: seq<Element>, after: string, c: Clock) {
    match e
    case ZeroSecond => !StartsFraction(after) || NextIsFraction(following)
    case FracSecond9 => if c.nanos == 0 then !StartsFraction(after) else after == [] || !IsDigit(after[0])
    case _ => true
  }

  /** Every element of `layout`, written for `c` and followed by `rest`, is
      clear of what follows it. */
  predicate Unambiguous(layout: seq<Element>, c: Clock, offset: int, rest: string)
    requires InRange(c)
    decreases |layout|
  {
    layout == []
    || (Clear(layout[0], layout[1..], FormatElements(layout[1..], c, offset) + rest, c)
        && Unambiguous(layout[1..], c, offset, rest))
  }

  /** Wall clocks whose year `2006` writes in four digits. */
  predicate Writable(c: Clock) {
    InRange(c) && 0 <= c.date.year <= 9999
  }

  lemma TwoDigits(n: nat, after: string, fixed: bool)
    requires n < 100
    ensures |Pad(n, 2)| == 2
    ensures GetNum(Pad(n, 2) + after, fixed) == Some((n, after))
  {
    assert Pow10(2) == 100;
    PadValue(n, 2);
    var p := Pad(n, 2);
    assert DigitsValue(p) == DigitsValue(p[..1]) * 10 + DigitValue(p[1]);
    assert p[..1][..0] == [];
    assert (p + after)[2..] == after;
  }

  lemma FourDigits(y: nat, after: string)
    requires y <= 9999
    ensures var s := YearText(y) + after;
      |s| >= 4 && AllDigits(s[..4]) && DigitsValue(s[..4]) == y && s[4..] == after
  {
    assert Pow10(4) == 10000;
    PadValue(y, 4);
    var s := YearText(y) + after;
    assert s[..4] == Pad(y, 4);
  }

  lemma FractionDigits(nanos: nat, after: string)
    requires 0 < nanos < NanosPerSecond
    requires after == [] || !IsDigit(after[0])
    ensures var s := "." + FractionText(nanos) + after;
      && StartsFraction(s)
      && FractionNanos(s[1..FractionEnd(s)]) == nanos
      && s[FractionEnd(s)..] == after
  {
    FractionRoundTrip(nanos);
    var digits := FractionText(nanos);
    var s := "." + digits + after;
    assert s[1..] == digits + after;
    DigitRunOfDigits(digits, after);
    assert s[1..1 + |digits|] == digits;
    assert s[1 + |digits|..] == after;
  }

  lemma ParseSignedZone(sign: string, hh: string, mm: string, after: string, h: nat, m: nat)
    requires sign == "+" || sign == "-"
    requires |hh| == 2 && |mm| == 2 && h <= 24 && m <= 60
    requires GetNum(hh, true) == Some((h, [])) && GetNum(mm, true) == Some((m, []))
    ensures ParseZone(sign + hh + ":" + mm + after)
         == Some((if sign == "-" then -(h * 3600 + m * 60) else h * 3600 + m * 60, after))
  {
    var s := sign + hh + ":" + mm + after;
    assert s[1..3] == hh && s[4..6] == mm && s[3] == ':' && s[6..] == after;
  }

  lemma ZoneText(offset: int, after: string)
    requires WholeMinuteOffset(offset)
    ensures ParseZone(OffsetText(offset) + after) == Some((offset, after))
  {
    if offset == 0 {
      assert (OffsetText(offset) + after)[1..] == after;
    } else {
      var minutes := (if offset < 0 then -offset else offset) / 60;
      var hh, mm := Pad(minutes / 60, 2), Pad(minutes % 60, 2);
      TwoDigits(minutes / 60, [], true);
      TwoDigits(minutes % 60, [], true);
      assert hh + [] == hh && mm + [] == mm;
      ParseSignedZone(OffsetSign(offset), hh, mm, after, minutes / 60, minutes % 60);
      assert minutes / 60 * 3600 + minutes % 60 * 60 == if offset < 0 then -offset else offset;
    }
  }

  /** The first character `Z07:00` writes is never part of a number or a fraction. */
  lemma ZoneTextStart(offset: int, after: string)
    ensures var s := OffsetText(offset) + after; s != [] && !IsDigit(s[0]) && !StartsFraction(s)
  {
  }

  /** Reading one element back from its own text. */
  lemma ParseFormatElement(e: Element, following: seq<Element>, c: Clock, offset: int, after: string, f: Fields)
    requires Writable(c) && Clear(e, following, after, c)
    requires e.ISO8601ColonTZ? ==> WholeMinuteOffset(offset)
    ensures ParseElement(e, following, FormatElement(e, c, offset) + after, f)
         == Some((Overlay([e], c, offset, f), after))
  {
    var text := FormatElement(e, c, offset);
    match e {
      case Literal(ch) =>
        assert ([ch] + after)[1..] == after;
      case LongYear =>
        FourDigits(c.date.year, after);
      case ZeroMonth =>
        TwoDigits(c.date.month, after, true);
      case ZeroDay =>
        TwoDigits(c.date.day, after, true);
      case Hour =>
        TwoDigits(c.hour, after, false);
      case ZeroMinute =>
        TwoDigits(c.minute, after, true);
      case ZeroSecond =>
        TwoDigits(c.second, after, true);
      case FracSecond9 =>
        if c.nanos == 0 {
          assert text + after == after;
        } else {
          FractionDigits(c.nanos, after);
        }
      case ISO8601ColonTZ =>
        ZoneText(offset, after);
    }
  }

  lemma OverlayStep(e: Element, layout: seq<Element>, c: Clock, offset: int, f: Fields)
    ensures Overlay(layout, c, offset, Overlay([e], c, offset, f)) == Overlay([e] + layout, c, offset, f)
  {
  }

  /** Reading the text of an unambiguous layout back gives the fields it was
      written from, and stops where that text ends. */
  lemma {:induction false} ParseFormatElements(layout: seq<Element>, c: Clock, offset: int, rest: string, f: Fields)
    requires Writable(c) && Unambiguous(layout, c, offset, rest)
    requires ISO8601ColonTZ in layout ==> WholeMinuteOffset(offset)
    ensures ParseElements(layout, FormatElements(layout, c, offset) + rest, f)
         == Some((Overlay(layout, c, offset, f), rest))
    decreases |layout|
  {
    if layout == [] {
      assert FormatElements(layout, c, offset) + rest == rest;
    } else {
      var e, tail := layout[0], layout[1..];
      var after := FormatElements(tail, c, offset) + rest;
      assert FormatElements(layout, c, offset) + rest == FormatElement(e, c, offset) + after;
      ParseFormatElement(e, tail, c, offset, after, f);
      ParseFormatElements(tail, c, offset, rest, Overlay([e], c, offset, f));
      OverlayStep(e, tail, c, offset, f);
      assert [e] + tail == layout;
    }
  }

  lemma {:induction false} UnambiguousAppend(simple: seq<Element>, tail: seq<Element>, c: Clock, offset: int, rest: string)
    requires InRange(c) && forall i :: 0 <= i < |simple| ==> Simple(simple[i])
    requires Unambiguous(tail, c, offset, rest)
    ensures Unambiguous(simple + tail, c, offset, rest)
    decreases |simple|
  {
    if simple != [] {
      assert (simple + tail)[1..] == simple[1..] + tail;
      UnambiguousAppend(simple[1..], tail, c, offset, rest);
    } else {
      assert simple + tail == tail;
    }
  }

  /** Which elements the date-and-minute prefix holds. */
  lemma DateHourMinuteContents()
    ensures forall i :: 0 <= i < |DateHourMinute| ==> Simple(DateHourMinute[i])
    ensures LongYear in DateHourMinute && ZeroMonth in DateHourMinute && ZeroDay in DateHourMinute
    ensures Hour in DateHourMinute && ZeroMinute in DateHourMinute
    ensures ZeroSecond !in DateHourMinute && FracSecond9 !in DateHourMinute
    ensures ISO8601ColonTZ !in DateHourMinute
  {
  }

  // -------------------------------------------------------------- round trips

  lemma {:induction false} FormatElementsAppend(a: seq<Element>, b: seq<Element>, c: Clock, offset: int)
    requires InRange(c)
    ensures FormatElements(a + b, c, offset) == FormatElements(a, c, offset) + FormatElements(b, c, offset)
    decreases |a|
  {
    if a == [] {
      assert a + b == b;
    } else {
      assert (a + b)[1..] == a[1..] + b;
      FormatElementsAppend(a[1..], b, c, offset);
    }
  }

  /** Reading a layout that starts with simple elements: first those, then
      the rest from where they stopped. */
  lemma {:induction false} ParseElementsAppend(a: seq<Element>, b: seq<Element>, s: string, f: Fields)
    requires forall i :: 0 <= i < |a| ==> Simple(a[i])
    ensures ParseElements(a + b, s, f)
         == match ParseElements(a, s, f)
            case None => None
            case Some((f', rest)) => ParseElements(b, rest, f')
    decreases |a|
  {
    if a == [] {
      assert a + b == b;
    } else {
      assert (a + b)[0] == a[0] && (a + b)[1..] == a[1..] + b;
      assert ParseElement(a[0], a[1..] + b, s, f) == ParseElement(a[0], a[1..], s, f);
      match ParseElement(a[0], a[1..], s, f)
      case None =>
      case Some((f', rest)) =>
        ParseElementsAppend(a[1..], b, rest, f');
    }
  }

  /** Seconds written with no fraction are read alone. */
  lemma SecondAlone(c: Clock, offset: int, following: seq<Element>, after: string, f: Fields)
    requires Writable(c) && c.nanos == 0
    requires after == [] || (!IsDigit(after[0]) && !StartsFraction(after))
    ensures ParseElement(ZeroSecond, following, Pad(c.second, 2) + after, f)
         == Some((f.(second := c.second), after))
  {
    TwoDigits(c.second, after, true);
  }

  /** Seconds followed by a written fraction are read together with it
      when the layout being read has no fraction of its own. */
  lemma SecondThenFraction(c: Clock, offset: int, following: seq<Element>, after: string, f: Fields)
    requires Writable(c) && c.nanos != 0 && !NextIsFraction(following)
    requires after == [] || (!IsDigit(after[0]) && !StartsFraction(after))
    ensures ParseElement(ZeroSecond, following, Pad(c.second, 2) + ("." + FractionText(c.nanos) + after), f)
         == Some((f.(second := c.second, nanos := c.nanos), after))
  {
    var frac := "." + FractionText(c.nanos) + after;
    TwoDigits(c.second, frac, true);
    FractionDigits(c.nanos, after);
  }

  /** A fraction written by `.999999999` right after the seconds is read
      together with them when the layout being read has no fraction. */
  lemma SecondWithFraction(c: Clock, offset: int, following: seq<Element>, after: string, f: Fields)
    requires Writable(c) && !NextIsFraction(following)
    requires after == [] || (!IsDigit(after[0]) && !StartsFraction(after))
    ensures ParseElement(ZeroSecond, following,
                         FormatElement(ZeroSecond, c, offset) + FormatElement(FracSecond9, c, offset) + after, f)
         == Some((Overlay([ZeroSecond, FracSecond9], c, offset, f), after))
  {
    var sec, frac := FormatElement(ZeroSecond, c, offset), FormatElement(FracSecond9, c, offset);
    if c.nanos == 0 {
      assert sec + frac + after == Pad(c.second, 2) + after;
      SecondAlone(c, offset, following, after, f);
    } else {
      assert sec + frac + after == Pad(c.second, 2) + ("." + FractionText(c.nanos) + after);
      SecondThenFraction(c, offset, following, after, f);
    }
  }

  /** The text of `[ZeroSecond, FracSecond9]` read with `[ZeroSecond]`. */
  lemma ReadSecondsFraction(c: Clock, offset: int, f: Fields)
    requires Writable(c)
    ensures ParseElements([ZeroSecond], FormatElements([ZeroSecond, FracSecond9], c, offset), f)
         == Some((Overlay([ZeroSecond, FracSecond9], c, offset, f), []))
  {
    var sec, frac := FormatElement(ZeroSecond, c, offset), FormatElement(FracSecond9, c, offset);
    assert [ZeroSecond, FracSecond9][1..] == [FracSecond9] && [FracSecond9][1..] == [];
    assert FormatElements([FracSecond9], c, offset) == frac + [];
    assert FormatElements([ZeroSecond, FracSecond9], c, offset) == sec + (frac + []);
    assert sec + (frac + []) == sec + frac + [];
    SecondWithFraction(c, offset, [], [], f);
  }

  /** The text of `[ZeroSecond, FracSecond9, ISO8601ColonTZ]`: seconds,
      fraction, offset. */
  lemma SecondsFractionZoneText(c: Clock, offset: int)
    requires Writable(c)
    ensures FormatElements([ZeroSecond, FracSecond9, ISO8601ColonTZ], c, offset)
         == FormatElement(ZeroSecond, c, offset) + FormatElement(FracSecond9, c, offset) + OffsetText(offset)
  {
    var sec, frac, zone := FormatElement(ZeroSecond, c, offset), FormatElement(FracSecond9, c, offset), OffsetText(offset);
    assert [ZeroSecond, FracSecond9, ISO8601ColonTZ][1..] == [FracSecond9, ISO8601ColonTZ];
    assert [FracSecond9, ISO8601ColonTZ][1..] == [ISO8601ColonTZ] && [ISO8601ColonTZ][1..] == [];
    assert FormatElements([ISO8601ColonTZ], c, offset) == zone + [];
    assert FormatElements([FracSecond9, ISO8601ColonTZ], c, offset) == frac + (zone + []);
    assert sec + (frac + (zone + [])) == sec + frac + zone;
  }

  /** The text of `[ZeroSecond, FracSecond9, ISO8601ColonTZ]` read with
      `[ZeroSecond, ISO8601ColonTZ]`. */
  lemma ReadSecondsFractionZone(c: Clock, offset: int, f: Fields)
    requires Writable(c) && WholeMinuteOffset(offset)
    ensures ParseElements([ZeroSecond, ISO8601ColonTZ],
                          FormatElements([ZeroSecond, FracSecond9, ISO8601ColonTZ], c, offset), f)
         == Some((Overlay([ZeroSecond, FracSecond9, ISO8601ColonTZ], c, offset, f), []))
  {
    var sec, frac, zone := FormatElement(ZeroSecond, c, offset), FormatElement(FracSecond9, c, offset), OffsetText(offset);
    var text := FormatElements([ZeroSecond, FracSecond9, ISO8601ColonTZ], c, offset);
    var f1 := Overlay([ZeroSecond, FracSecond9], c, offset, f);
    assert text == sec + frac + zone by {
      SecondsFractionZoneText(c, offset);
    }
    assert ParseElement(ZeroSecond, [ISO8601ColonTZ], text, f) == Some((f1, zone)) by {
      ZoneTextStart(offset, []);
      assert zone + [] == zone;
      SecondWithFraction(c, offset, [ISO8601ColonTZ], zone, f);
    }
    assert ParseElements([ZeroSecond, ISO8601ColonTZ], text, f) == ParseElements([ISO8601ColonTZ], zone, f1) by {
      assert [ZeroSecond, ISO8601ColonTZ][1..] == [ISO8601ColonTZ];
    }
    assert ParseElements([ISO8601ColonTZ], zone, f1) == Some((f1.(offset := Some(offset)), [])) by {
      ZoneText(offset, []);
      assert zone + [] == zone;
      assert ParseElement(ISO8601ColonTZ, [], zone, f1) == Some((f1.(offset := Some(offset)), []));
      assert [ISO8601ColonTZ][1..] == [];
    }
    assert Overlay([ZeroSecond, FracSecond9, ISO8601ColonTZ], c, offset, f) == f1.(offset := Some(offset)) by {
      assert ISO8601ColonTZ in [ZeroSecond, FracSecond9, ISO8601ColonTZ];
      assert ISO8601ColonTZ !in [ZeroSecond, FracSecond9];
    }
  }

  /** Reading the date, hour and minute written for `c` sets those fields
      and leaves the rest of the layout to read what follows them. */
  lemma ReadDateHourMinute(c: Clock, offset: int, layout: seq<Element>, tail: string)
    requires Writable(c)
    ensures ParseElements(DateHourMinute + layout, FormatElements(DateHourMinute, c, offset) + tail, Unset)
         == ParseElements(layout, tail, Fields(c.date.year, c.date.month, c.date.day, c.hour, c.minute, 0, 0, None))
  {
    DateHourMinuteContents();
    var s := FormatElements(DateHourMinute, c, offset) + tail;
    ParseElementsAppend(DateHourMinute, layout, s, Unset);
    UnambiguousAppend(DateHourMinute, [], c, offset, tail);
    assert DateHourMinute + [] == DateHourMinute;
    ParseFormatElements(DateHourMinute, c, offset, tail, Unset);
  }

  /** The text of `DateHourMinute + [ZeroSecond, FracSecond9] + zone`, read
      with `DateHourMinute + [ZeroSecond] + zone`, gives back every field. */
  lemma ReadWithoutFractionElement(c: Clock, offset: int, zone: seq<Element>)
    requires Writable(c)
    requires zone == [] || (zone == [ISO8601ColonTZ] && WholeMinuteOffset(offset))
    ensures ParseElements(DateHourMinute + ([ZeroSecond] + zone),
                          FormatElements(DateHourMinute + ([ZeroSecond, FracSecond9] + zone), c, offset), Unset)
         == Some((ClockFields(c, c.nanos, if zone == [] then None else Some(offset)), []))
  {
    var tail := FormatElements([ZeroSecond, FracSecond9] + zone, c, offset);
    FormatElementsAppend(DateHourMinute, [ZeroSecond, FracSecond9] + zone, c, offset);
    ReadDateHourMinute(c, offset, [ZeroSecond] + zone, tail);
    var f1 := Fields(c.date.year, c.date.month, c.date.day, c.hour, c.minute, 0, 0, None);
    if zone == [] {
      assert [ZeroSecond, FracSecond9] + zone == [ZeroSecond, FracSecond9];
      assert [ZeroSecond] + zone == [ZeroSecond];
      ReadSecondsFraction(c, offset, f1);
    } else {
      assert [ZeroSecond, FracSecond9] + zone == [ZeroSecond, FracSecond9, ISO8601ColonTZ];
      assert [ZeroSecond] + zone == [ZeroSecond, ISO8601ColonTZ];
      ReadSecondsFractionZone(c, offset, f1);
    }
  }

  /** The text of `DateHourMinute + [ZeroSecond] + zone` read with the same
      layout gives back every field but the fraction. */
  lemma ReadSameLayout(c: Clock, offset: int, zone: seq<Element>)
    requires Writable(c)
    requires zone == [] || (zone == [ISO8601ColonTZ] && WholeMinuteOffset(offset))
    ensures ParseElements(DateHourMinute + ([ZeroSecond] + zone),
                          FormatElements(DateHourMinute + ([ZeroSecond] + zone), c, offset), Unset)
         == Some((ClockFields(c, 0, if zone == [] then None else Some(offset)), []))
  {
    var layout := [ZeroSecond] + zone;
    var tail := FormatElements(layout, c, offset);
    FormatElementsAppend(DateHourMinute, layout, c, offset);
    ReadDateHourMinute(c, offset, layout, tail);
    var f1 := Fields(c.date.year, c.date.month, c.date.day, c.hour, c.minute, 0, 0, None);
    SecondsZone(c, offset, zone, f1);
    assert tail + [] == tail;
  }

  /** The text of `[ZeroSecond] + zone` read with the same layout. */
  lemma SecondsZone(c: Clock, offset: int, zone: seq<Element>, f: Fields)
    requires Writable(c)
    requires zone == [] || (zone == [ISO8601ColonTZ] && WholeMinuteOffset(offset))
    ensures ParseElements([ZeroSecond] + zone, FormatElements([ZeroSecond] + zone, c, offset) + [], f)
         == Some((Overlay([ZeroSecond] + zone, c, offset, f), []))
  {
    var layout := [ZeroSecond] + zone;
    assert layout[1..] == zone;
    if zone == [] {
      assert FormatElements(zone, c, offset) + [] == [];
    } else {
      ZoneTextStart(offset, []);
      assert FormatElements(zone, c, offset) + [] == OffsetText(offset) + [];
      assert Unambiguous(zone, c, offset, []);
    }
    assert Unambiguous(layout, c, offset, []);
    ParseFormatElements(layout, c, offset, [], f);
  }

  /** The fields of the whole wall clock, with `nanos` as the fraction. */
  function ClockFields(c: Clock, nanos: int, offset: Option<int>): Fields {
    Fields(c.date.year, c.date.month, c.date.day, c.hour, c.minute, c.second, nanos, offset)
  }

  /** Hours, minutes and seconds of a second-of-day add back up to it. */
  lemma SplitSecondOfDay(sod: int)
    requires 0 <= sod
    ensures sod / 3600 * 3600 + sod % 3600 / 60 * 60 + sod % 3600 % 60 == sod
  {
    var r := sod % 3600;
    assert sod == sod / 3600 * 3600 + r;
    assert r == r / 60 * 60 + r % 60;
  }

  /** Days and second-of-day of the local second add back up to it, and
      leaving the zone again lands on the start of `n`'s second. */
  lemma RebuildInstant(n: int, offset: int, nanos: int)
    ensures var local := n / NanosPerSecond + offset;
      (local / SecondsPerDay * SecondsPerDay + local % SecondsPerDay) * NanosPerSecond + nanos
        - offset * NanosPerSecond == n - n % NanosPerSecond + nanos
  {
    var local := n / NanosPerSecond + offset;
    assert local / SecondsPerDay * SecondsPerDay + local % SecondsPerDay == local;
    assert n / NanosPerSecond * NanosPerSecond == n - n % NanosPerSecond;
  }

  /** Reading the fields of `t`'s wall clock back names `t`'s instant,
      moved to the start of its second and then by `nanos`. */
  lemma WallClockInstant(t: Time, nanos: int, offset: Option<int>, loc: Zone)
    requires offset.Some? ==> offset.value == t.offset
    requires offset.None? ==> loc.offset == t.offset
    ensures FieldsTime(ClockFields(WallClock(t), nanos, offset), loc)
         == Time(t.nanos - t.nanos % NanosPerSecond + nanos, t.offset)
  {
    var c := WallClock(t);
    var sod := LocalSeconds(t) % SecondsPerDay;
    assert DaysFromCivil(c.date) == LocalDay(t);
    SplitSecondOfDay(sod);
    assert c.hour * 3600 + c.minute * 60 + c.second == sod;
    RebuildInstant(t.nanos, t.offset, nanos);
  }

  /** A layout that reads all of `s` into a valid date names the time of
      those fields. */
  lemma ReadAll(layout: seq<Element>, s: string, loc: Zone, f: Fields)
    requires ParseElements(layout, s, Unset) == Some((f, []))
    requires ValidDate(Date(f.year, f.month, f.day))
    ensures Parse(layout, s, loc) == Some(FieldsTime(f, loc))
  {
  }

  /** The layouts, split after the minute and after the seconds. */
  lemma LayoutShapes()
    ensures RFC3339NanoLayout == DateHourMinute + ([ZeroSecond, FracSecond9] + [ISO8601ColonTZ])
    ensures RFC3339Layout == DateHourMinute + ([ZeroSecond] + [ISO8601ColonTZ])
    ensures DateTimeLayout + [FracSecond9] == DateHourMinute + ([ZeroSecond, FracSecond9] + [])
    ensures DateTimeLayout == DateHourMinute + ([ZeroSecond] + [])
  {
  }

  /** Writing a time with `RFC3339Nano` and reading it with `RFC3339` (as
      `encoding/json` does) gives the same instant in the same offset, for
      four-digit years and offsets in whole minutes. */
  lemma ParseFormatNano(t: Time)
    requires InFourDigitYears(t) && WholeMinuteOffset(t.offset)
    ensures ParseRFC3339(FormatRFC3339Nano(t)) == Some(t)
  {
    var c := WallClock(t);
    LayoutShapes();
    ReadWithoutFractionElement(c, t.offset, [ISO8601ColonTZ]);
    var f := ClockFields(c, c.nanos, Some(t.offset));
    ReadAll(RFC3339Layout, FormatRFC3339Nano(t), UTC, f);
    WallClockInstant(t, c.nanos, Some(t.offset), UTC);
  }

  /** `RFC3339` drops the sub-second part: reading its text back gives the
      time truncated to the second. */
  lemma ParseFormat(t: Time)
    requires InFourDigitYears(t) && WholeMinuteOffset(t.offset)
    ensures ParseRFC3339(Format(RFC3339Layout, t)) == Some(TruncateToSecond(t))
  {
    var c := WallClock(t);
    LayoutShapes();
    ReadSameLayout(c, t.offset, [ISO8601ColonTZ]);
    var f := ClockFields(c, 0, Some(t.offset));
    ReadAll(RFC3339Layout, Format(RFC3339Layout, t), UTC, f);
    WallClockInstant(t, 0, Some(t.offset), UTC);
  }

  /** Graph's zone-less text, with any fraction, read in a zone that has
      `t`'s offset gives `t` back. */
  lemma ParseDateTimeRoundTrip(t: Time, loc: Zone)
    requires InFourDigitYears(t) && loc.offset == t.offset
    ensures Parse(DateTimeLayout, Format(DateTimeLayout + [FracSecond9], t), loc) == Some(t)
  {
    var c := WallClock(t);
    LayoutShapes();
    ReadWithoutFractionElement(c, t.offset, []);
    var f := ClockFields(c, c.nanos, None);
    ReadAll(DateTimeLayout, Format(DateTimeLayout + [FracSecond9], t), loc, f);
    WallClockInstant(t, c.nanos, None, loc);
  }
}
