/** The part of JSON that `encoding/json` writes for the schema types: a value
    tree, the compact text `json.Marshal` prints for it, and a reader for JSON
    text. Reading what was printed gives the value back (`ReadPrinted`). */
module Json {
  import opened Wrappers

  datatype Value =
    | Null
    | Bool(b: bool)
    | Number(n: int)
    | String(s: string)
    | Array(items: seq<Value>)
    | Object(members: seq<Member>)

  datatype Member = Member(key: string, value: Value)

  // ------------------------------------------------------------------ numbers

  predicate IsDigit(c: char) {
    '0' <= c <= '9'
  }

  function Digit(d: nat): (c: char)
    requires d < 10
    ensures IsDigit(c)
  {
    "0123456789"[d]
  }

  /** The decimal digits of `n`, most significant first, without leading zeros. */
  function NaturalText(n: nat): (r: string)
    ensures r != [] && (forall i :: 0 <= i < |r| ==> IsDigit(r[i]))
    ensures |r| > 1 ==> r[0] != '0'
  {
    if n < 10 then [Digit(n)] else NaturalText(n / 10) + [Digit(n % 10)]
  }

  /** How `strconv.AppendInt` writes an integer. */
  function IntegerText(n: int): string {
    if n < 0 then "-" + NaturalText(-n) else NaturalText(n)
  }

  /** The value of a run of decimal digits. */
  function DigitsValue(s: string): nat
    requires forall i :: 0 <= i < |s| ==> IsDigit(s[i])
  {
    if s == [] then 0
    else
      assert IsDigit(s[|s| - 1]);
      DigitsValue(s[..|s| - 1]) * 10 + (s[|s| - 1] as int - '0' as int)
  }

  /** How many digits `s` starts with. */
  function DigitCount(s: string): (n: nat)
    ensures n <= |s| && (forall i :: 0 <= i < n ==> IsDigit(s[i]))
    ensures n < |s| ==> !IsDigit(s[n])
  {
    if s == [] || !IsDigit(s[0]) then 0 else 1 + DigitCount(s[1..])
  }

  // ------------------------------------------------------------------ strings

  function HexDigit(d: nat): (c: char)
    requires d < 16
  {
    "0123456789abcdef"[d]
  }

  /** Four lower-case hexadecimal digits of a code unit. */
  function Hex4(n: nat): (r: string)
    requires n < 0x1_0000
    ensures |r| == 4
  {
    [HexDigit(n / 0x1000), HexDigit(n / 0x100 % 16), HexDigit(n / 0x10 % 16), HexDigit(n % 16)]
  }

  /** Characters `encoding/json` writes as `\u` escapes: control characters
      without a short escape, the HTML-sensitive `<`, `>` and `&`, and the
      line and paragraph separators U+2028 and U+2029. */
  predicate HexEscaped(c: char) {
    (c < ' ' && c != '\n' && c != '\r' && c != '\t' && c != '\U{8}' && c != '\U{c}')
    || c == '<' || c == '>' || c == '&' || c == '\U{2028}' || c == '\U{2029}'
  }

  /** How `encoding/json` writes one character inside a string. */
  function EscapeChar(c: char): string {
    if c == '"' then "\\\""
    else if c == '\\' then "\\\\"
    else if c == '\n' then "\\n"
    else if c == '\r' then "\\r"
    else if c == '\t' then "\\t"
    else if c == '\U{8}' then "\\b"
    else if c == '\U{c}' then "\\f"
    else if HexEscaped(c) then "\\u" + Hex4(c as int)
    else [c]
  }

  function Escape(s: string): string {
    if s == [] then [] else EscapeChar(s[0]) + Escape(s[1..])
  }

  function Quote(s: string): string {
    "\"" + Escape(s) + "\""
  }

  // ----------------------------------------------------------------- printing

  /** The compact text of a value, as `json.Marshal` prints it. */
  function Print(v: Value): string
    decreases v, 1
  {
    match v
    case Null => "null"
    case Bool(b) => if b then "true" else "false"
    case Number(n) => IntegerText(n)
    case String(s) => Quote(s)
    case Array(items) => "[" + PrintItems(items)
    case Object(members) => "{" + PrintMembers(members)
  }

  /** The elements of an array and its closing bracket. */
  function PrintItems(items: seq<Value>): string
    decreases items, 2
  {
    if items == [] then "]" else Print(items[0]) + PrintMoreItems(items[1..])
  }

  /** Each further element after a comma, then the closing bracket. */
  function PrintMoreItems(items: seq<Value>): string
    decreases items, 1
  {
    if items == [] then "]" else "," + Print(items[0]) + PrintMoreItems(items[1..])
  }

  function PrintMember(m: Member): string
    decreases m, 2
  {
    Quote(m.key) + ":" + Print(m.value)
  }

  /** The members of an object and its closing brace. */
  function PrintMembers(members: seq<Member>): string
    decreases members, 2
  {
    if members == [] then "}" else PrintMember(members[0]) + PrintMoreMembers(members[1..])
  }

  function PrintMoreMembers(members: seq<Member>): string
    decreases members, 1
  {
    if members == [] then "}" else "," + PrintMember(members[0]) + PrintMoreMembers(members[1..])
  }

  // ------------------------------------------------------------------ reading

  /** The whitespace JSON allows between tokens. */
  predicate IsSpace(c: char) {
    c == ' ' || c == '\t' || c == '\n' || c == '\r'
  }

  function SkipSpace(s: string): (r: string)
    ensures |r| <= |s| && r == s[|s| - |r|..]
    ensures r == [] || !IsSpace(r[0])
  {
    if s != [] && IsSpace(s[0]) then SkipSpace(s[1..]) else s
  }

  /** A literal word such as `null` at the start of `s`. */
  function ReadWord(word: string, v: Value, s: string): (r: Option<(Value, string)>)
    requires word != []
    ensures r.Some? ==> |r.value.1| < |s|
  {
    if |word| <= |s| && s[..|word|] == word then Some((v, s[|word|..])) else None
  }

  /** An integer: an optional minus sign, then `0` or digits that do not
      start with `0`. A fraction or an exponent is refused, as it is when Go
      decodes a number into an integer field. */
  /** The digits of an integer without its sign: no leading zero, and no
      fraction or exponent after them. */
  function ReadDigits(t: string): (r: Option<(nat, string)>)
    ensures r.Some? ==> |r.value.1| < |t|
  {
    var n := DigitCount(t);
    if n == 0 || (n > 1 && t[0] == '0') then None
    else if n < |t| && (t[n] == '.' || t[n] == 'e' || t[n] == 'E') then None
    else Some((DigitsValue(t[..n]), t[n..]))
  }

  function ReadNumber(s: string): (r: Option<(Value, string)>)
    ensures r.Some? ==> |r.value.1| < |s|
  {
    if s != [] && s[0] == '-' then
      match ReadDigits(s[1..])
      case None => None
      case Some((m, rest)) => Some((Number(-(m as int)), rest))
    else
      match ReadDigits(s)
      case None => None
      case Some((m, rest)) => Some((Number(m), rest))
  }

  predicate IsHex(c: char) {
    '0' <= c <= '9' || 'a' <= c <= 'f' || 'A' <= c <= 'F'
  }

  function HexValue(c: char): nat
    requires IsHex(c)
  {
    if '0' <= c <= '9' then c as int - '0' as int
    else if 'a' <= c <= 'f' then c as int - 'a' as int + 10
    else c as int - 'A' as int + 10
  }

  /** Go's `getu4`: `\u` and four hexadecimal digits at the start of `s`. */
  function ReadU4(s: string): (r: Option<nat>)
    ensures r.Some? ==> |s| >= 6 && r.value < 0x1_0000
  {
    if |s| < 6 || s[0] != '\\' || s[1] != 'u' || !IsHex(s[2]) || !IsHex(s[3]) || !IsHex(s[4]) || !IsHex(s[5]) then None
    else Some(HexValue(s[2]) * 0x1000 + HexValue(s[3]) * 0x100 + HexValue(s[4]) * 0x10 + HexValue(s[5]))
  }

  predicate IsSurrogate(u: int) {
    0xD800 <= u < 0xE000
  }

  const ReplacementChar: char := '\U{FFFD}'

  /** A `\u` escape starting `s`: a surrogate pair is joined, a surrogate
      without its partner becomes U+FFFD. */
  function ReadUnicodeEscape(s: string): (r: Option<(char, string)>)
    ensures r.Some? ==> |r.value.1| < |s|
  {
    match ReadU4(s)
    case None => None
    case Some(u) =>
      if !IsSurrogate(u) then Some((u as char, s[6..]))
      else
        match ReadU4(s[6..])
        case Some(low) =>
          if u < 0xDC00 && 0xDC00 <= low < 0xE000 then
            Some((((u - 0xD800) * 0x400 + (low - 0xDC00) + 0x1_0000) as char, s[12..]))
          else Some((ReplacementChar, s[6..]))
        case None => Some((ReplacementChar, s[6..]))
  }

  /** One escape sequence starting `s` with its backslash. */
  function ReadEscape(s: string): (r: Option<(char, string)>)
    requires |s| >= 1 && s[0] == '\\'
    ensures r.Some? ==> |r.value.1| < |s|
  {
    if |s| < 2 then None
    else if s[1] == 'u' then ReadUnicodeEscape(s)
    else if s[1] == '"' || s[1] == '\\' || s[1] == '/' then Some((s[1], s[2..]))
    else if s[1] == 'b' then Some(('\U{8}', s[2..]))
    else if s[1] == 'f' then Some(('\U{c}', s[2..]))
    else if s[1] == 'n' then Some(('\n', s[2..]))
    else if s[1] == 'r' then Some(('\r', s[2..]))
    else if s[1] == 't' then Some(('\t', s[2..]))
    else None
  }

  /** One character of a string's contents: an escape sequence or the
      character itself. */
  function ReadChar(s: string): (r: Option<(char, string)>)
    requires s != []
    ensures r.Some? ==> |r.value.1| < |s|
  {
    if s[0] == '\\' then ReadEscape(s) else Some((s[0], s[1..]))
  }

  /** The characters of a string up to and including its closing quote;
      a raw control character is an error. */
  function ReadChars(s: string): (r: Option<(string, string)>)
    ensures r.Some? ==> |r.value.1| < |s|
    decreases |s|
  {
    if s == [] then None
    else if s[0] == '"' then Some(([], s[1..]))
    else if s[0] < ' ' then None
    else
      match ReadChar(s)
      case None => None
      case Some((c, rest)) =>
        match ReadChars(rest)
        case None => None
        case Some((cs, rest')) => Some(([c] + cs, rest'))
  }

  /** A quoted string at the start of `s`. */
  function ReadString(s: string): (r: Option<(string, string)>)
    ensures r.Some? ==> |r.value.1| < |s|
  {
    if s == [] || s[0] != '"' then None else ReadChars(s[1..])
  }

  /** A value at the start of `s`, after any whitespace. */
  function ReadValue(s: string): (r: Option<(Value, string)>)
    ensures r.Some? ==> |r.value.1| < |s|
    decreases |s|, 1
  {
    var t := SkipSpace(s);
    if t == [] then None
    else if t[0] == 'n' then ReadWord("null", Null, t)
    else if t[0] == 't' then ReadWord("true", Bool(true), t)
    else if t[0] == 'f' then ReadWord("false", Bool(false), t)
    else if t[0] == '"' then
      (match ReadString(t)
       case None => None
       case Some((str, rest)) => Some((String(str), rest)))
    else if t[0] == '[' then
      (match ReadItems(t[1..])
       case None => None
       case Some((items, rest)) => Some((Array(items), rest)))
    else if t[0] == '{' then
      (match ReadMembers(t[1..])
       case None => None
       case Some((members, rest)) => Some((Object(members), rest)))
    else ReadNumber(t)
  }

  /** The elements of an array after its `[`, up to and including its `]`. */
  function ReadItems(s: string): (r: Option<(seq<Value>, string)>)
    ensures r.Some? ==> |r.value.1| < |s|
    decreases |s|, 2
  {
    var t := SkipSpace(s);
    if t != [] && t[0] == ']' then Some(([], t[1..]))
    else
      match ReadValue(s)
      case None => None
      case Some((v, rest)) =>
        match ReadMoreItems(rest)
        case None => None
        case Some((vs, rest')) => Some(([v] + vs, rest'))
  }

  /** After an element: `]`, or a comma and the next element. */
  function ReadMoreItems(s: string): (r: Option<(seq<Value>, string)>)
    ensures r.Some? ==> |r.value.1| < |s|
    decreases |s|, 0
  {
    var t := SkipSpace(s);
    if t == [] then None
    else if t[0] == ']' then Some(([], t[1..]))
    else if t[0] != ',' then None
    else
      match ReadValue(t[1..])
      case None => None
      case Some((v, rest)) =>
        match ReadMoreItems(rest)
        case None => None
        case Some((vs, rest')) => Some(([v] + vs, rest'))
  }

  /** A member: a quoted key, a colon and a value. */
  function ReadMember(s: string): (r: Option<(Member, string)>)
    ensures r.Some? ==> |r.value.1| < |s|
    decreases |s|, 2
  {
    match ReadString(SkipSpace(s))
    case None => None
    case Some((key, rest)) =>
      var t := SkipSpace(rest);
      if t == [] || t[0] != ':' then None
      else
        match ReadValue(t[1..])
        case None => None
        case Some((v, rest')) => Some((Member(key, v), rest'))
  }

  /** The members of an object after its `{`, up to and including its `}`. */
  function ReadMembers(s: string): (r: Option<(seq<Member>, string)>)
    ensures r.Some? ==> |r.value.1| < |s|
    decreases |s|, 3
  {
    var t := SkipSpace(s);
    if t != [] && t[0] == '}' then Some(([], t[1..]))
    else
      match ReadMember(s)
      case None => None
      case Some((m, rest)) =>
        match ReadMoreMembers(rest)
        case None => None
        case Some((ms, rest')) => Some(([m] + ms, rest'))
  }

  function ReadMoreMembers(s: string): (r: Option<(seq<Member>, string)>)
    ensures r.Some? ==> |r.value.1| < |s|
    decreases |s|, 0
  {
    var t := SkipSpace(s);
    if t == [] then None
    else if t[0] == '}' then Some(([], t[1..]))
    else if t[0] != ',' then None
    else
      match ReadMember(t[1..])
      case None => None
      case Some((m, rest)) =>
        match ReadMoreMembers(rest)
        case None => None
        case Some((ms, rest')) => Some(([m] + ms, rest'))
  }

  /** `json.Unmarshal`'s syntax check: one value and nothing but whitespace
      after it. */
  function Read(s: string): (r: Option<Value>) {
    match ReadValue(s)
    case None => None
    case Some((v, rest)) => if SkipSpace(rest) == [] then Some(v) else None
  }

  // -------------------------------------------------------------- round trip

  /** What may follow a printed value without changing how it is read: the
      end, or a character that cannot continue a number. */
  predicate Ends(rest: string) {
    rest == [] || (!IsDigit(rest[0]) && rest[0] != '.' && rest[0] != 'e' && rest[0] != 'E')
  }

  lemma {:induction false} NaturalTextValue(n: nat)
    ensures DigitsValue(NaturalText(n)) == n
  {
    if n >= 10 {
      NaturalTextValue(n / 10);
      var r := NaturalText(n);
      assert r[..|r| - 1] == NaturalText(n / 10);
    }
  }

  lemma {:induction false} DigitCountOfDigits(digits: string, rest: string)
    requires forall i :: 0 <= i < |digits| ==> IsDigit(digits[i])
    requires rest == [] || !IsDigit(rest[0])
    ensures DigitCount(digits + rest) == |digits|
    decreases |digits|
  {
    if digits == [] {
      assert digits + rest == rest;
    } else {
      assert (digits + rest)[1..] == digits[1..] + rest;
      DigitCountOfDigits(digits[1..], rest);
    }
  }

  lemma ReadNaturalText(n: nat, rest: string)
    requires Ends(rest)
    ensures var s := NaturalText(n) + rest;
      && DigitCount(s) == |NaturalText(n)|
      && s[..|NaturalText(n)|] == NaturalText(n)
      && s[|NaturalText(n)|..] == rest
      && DigitsValue(s[..|NaturalText(n)|]) == n
  {
    DigitCountOfDigits(NaturalText(n), rest);
    NaturalTextValue(n);
  }

  /** The digits of a natural number are read back as it. */
  lemma ReadDigitsText(m: nat, rest: string)
    requires Ends(rest)
    ensures ReadDigits(NaturalText(m) + rest) == Some((m, rest))
  {
    var digits := NaturalText(m);
    var t := digits + rest;
    ReadNaturalText(m, rest);
    assert |digits| < |t| ==> t[|digits|] == rest[0];
  }

  /** A number that is not negative is read back from its digits. */
  lemma ReadNaturalNumber(n: int, rest: string)
    requires 0 <= n && Ends(rest)
    ensures ReadNumber(IntegerText(n) + rest) == Some((Number(n), rest))
  {
    var digits := NaturalText(n);
    var t := digits + rest;
    assert IntegerText(n) + rest == t;
    ReadDigitsText(n, rest);
    assert t[0] != '-' by {
      assert IsDigit(digits[0]);
    }
  }

  /** A minus sign negates the digits after it. */
  lemma ReadSigned(d: string, rest: string, m: nat)
    requires ReadDigits(d + rest) == Some((m, rest))
    ensures ReadNumber(("-" + d) + rest) == Some((Number(-(m as int)), rest))
  {
    assert (("-" + d) + rest)[1..] == d + rest;
  }

  /** A negative number is read back from its sign and digits. */
  lemma ReadNegativeNumber(n: int, rest: string)
    requires n < 0 && Ends(rest)
    ensures ReadNumber(IntegerText(n) + rest) == Some((Number(n), rest))
  {
    ReadDigitsText(-n, rest);
    ReadSigned(NaturalText(-n), rest, -n);
    assert IntegerText(n) == "-" + NaturalText(-n);
  }

  /** An integer is read back from its text. */
  lemma ReadIntegerText(n: int, rest: string)
    requires Ends(rest)
    ensures ReadNumber(IntegerText(n) + rest) == Some((Number(n), rest))
  {
    if n < 0 {
      ReadNegativeNumber(n, rest);
    } else {
      ReadNaturalNumber(n, rest);
    }
  }

  lemma HexDigitValue(d: nat)
    requires d < 16
    ensures IsHex(HexDigit(d)) && HexValue(HexDigit(d)) == d
  {
  }

  /** A code unit is read back from its `\u` escape. */
  lemma ReadHex4(n: nat, more: string)
    requires n < 0x1_0000
    ensures ReadU4("\\u" + Hex4(n) + more) == Some(n)
  {
    var a, b, c, d := n / 0x1000, n / 0x100 % 16, n / 0x10 % 16, n % 16;
    HexDigitValue(a);
    HexDigitValue(b);
    HexDigitValue(c);
    HexDigitValue(d);
    SplitHex4(n);
  }

  lemma SplitHex4(n: nat)
    requires n < 0x1_0000
    ensures n / 0x1000 * 0x1000 + n / 0x100 % 16 * 0x100 + n / 0x10 % 16 * 0x10 + n % 16 == n
  {
    var r := n % 0x1000;
    assert n == n / 0x1000 * 0x1000 + r;
    assert n / 0x100 == n / 0x1000 * 16 + r / 0x100;
    assert n / 0x100 % 16 == r / 0x100;
    var q := r % 0x100;
    assert r == r / 0x100 * 0x100 + q;
    assert n / 0x10 == n / 0x100 * 16 + q / 0x10;
    assert n / 0x10 % 16 == q / 0x10;
  }

  /** Each character is read back from the text `EscapeChar` writes for it. */
  lemma ReadEscapeChar(c: char, more: string)
    ensures var s := EscapeChar(c) + more;
      s != [] && s[0] != '"' && s[0] >= ' ' && ReadChar(s) == Some((c, more))
  {
    var s := EscapeChar(c) + more;
    if c == '"' || c == '\\' || c == '\n' || c == '\r' || c == '\t' || c == '\U{8}' || c == '\U{c}' {
      assert s[2..] == more;
    } else if HexEscaped(c) {
      ReadHex4(c as int, more);
      assert s[6..] == more;
    } else {
      assert s[1..] == more;
    }
  }

  /** The escaped contents of a string, closed by a quote, are read back. */
  lemma {:induction false} ReadEscaped(str: string, rest: string)
    ensures ReadChars(Escape(str) + "\"" + rest) == Some((str, rest))
    decreases |str|
  {
    var s := Escape(str) + "\"" + rest;
    if str == [] {
      assert s == "\"" + rest;
      assert s[1..] == rest;
    } else {
      var more := Escape(str[1..]) + "\"" + rest;
      assert s == EscapeChar(str[0]) + more;
      ReadEscapeChar(str[0], more);
      ReadEscaped(str[1..], rest);
      assert [str[0]] + str[1..] == str;
    }
  }

  /** A quoted string is read back. */
  lemma ReadQuote(str: string, rest: string)
    ensures ReadString(Quote(str) + rest) == Some((str, rest))
  {
    assert (Quote(str) + rest)[1..] == Escape(str) + "\"" + rest;
    ReadEscaped(str, rest);
  }

  /** Printed text starts with the character that announces its kind. */
  lemma PrintStart(v: Value)
    ensures Print(v) != [] && !IsSpace(Print(v)[0])
    ensures v.Null? <==> Print(v)[0] == 'n'
    ensures v.Bool? <==> Print(v)[0] == 't' || Print(v)[0] == 'f'
    ensures v.String? <==> Print(v)[0] == '"'
    ensures v.Array? <==> Print(v)[0] == '['
    ensures v.Object? <==> Print(v)[0] == '{'
    ensures Print(v)[0] != ']' && Print(v)[0] != '}'
  {
  }

  lemma SkipNoSpace(s: string)
    requires s != [] && !IsSpace(s[0])
    ensures SkipSpace(s) == s
  {
  }

  /** Concatenation regrouped to the right, and the tail after a one-character
      head: the shape every reader step consumes. */
  lemma Regroup(head: string, a: string, b: string, rest: string)
    requires |head| == 1
    ensures var s := head + a + b + rest;
      s == head + (a + (b + rest)) && s != [] && s[0] == head[0] && s[1..] == a + (b + rest)
  {
  }

  lemma Unwrap(head: string, a: string, rest: string)
    requires |head| == 1
    ensures var s := head + a + rest; s != [] && s[0] == head[0] && s[1..] == a + rest
  {
  }

  lemma Regroup3(a: string, b: string, c: string, rest: string)
    ensures a + b + c + rest == a + (b + c + rest)
  {
  }

  lemma HeadTail<T>(s: seq<T>)
    requires s != []
    ensures [s[0]] + s[1..] == s
  {
  }

  // One step of each reader, over abstract text.

  lemma ItemsStep(s: string, v: Value, vs: seq<Value>, r: string, r': string)
    requires s != [] && !IsSpace(s[0]) && s[0] != ']'
    requires ReadValue(s) == Some((v, r)) && ReadMoreItems(r) == Some((vs, r'))
    ensures ReadItems(s) == Some(([v] + vs, r'))
  {
    SkipNoSpace(s);
  }

  lemma MoreItemsStep(s: string, v: Value, vs: seq<Value>, r: string, r': string)
    requires s != [] && s[0] == ','
    requires ReadValue(s[1..]) == Some((v, r)) && ReadMoreItems(r) == Some((vs, r'))
    ensures ReadMoreItems(s) == Some(([v] + vs, r'))
  {
    SkipNoSpace(s);
  }

  lemma MembersStep(s: string, m: Member, ms: seq<Member>, r: string, r': string)
    requires s != [] && !IsSpace(s[0]) && s[0] != '}'
    requires ReadMember(s) == Some((m, r)) && ReadMoreMembers(r) == Some((ms, r'))
    ensures ReadMembers(s) == Some(([m] + ms, r'))
  {
    SkipNoSpace(s);
  }

  lemma MoreMembersStep(s: string, m: Member, ms: seq<Member>, r: string, r': string)
    requires s != [] && s[0] == ','
    requires ReadMember(s[1..]) == Some((m, r)) && ReadMoreMembers(r) == Some((ms, r'))
    ensures ReadMoreMembers(s) == Some(([m] + ms, r'))
  {
    SkipNoSpace(s);
  }

  lemma ClosingStep(s: string, rest: string)
    requires s == "]" + rest || s == "}" + rest
    ensures s[0] == ']' ==> ReadItems(s) == Some(([], rest)) && ReadMoreItems(s) == Some(([], rest))
    ensures s[0] == '}' ==> ReadMembers(s) == Some(([], rest)) && ReadMoreMembers(s) == Some(([], rest))
  {
    SkipNoSpace(s);
    assert s[1..] == rest;
  }

  lemma MemberStep(key: string, after: string, v: Value, rest: string)
    requires after != [] && after[0] == ':'
    requires ReadValue(after[1..]) == Some((v, rest))
    ensures ReadMember(Quote(key) + after) == Some((Member(key, v), rest))
  {
    var s := Quote(key) + after;
    SkipNoSpace(s);
    ReadQuote(key, after);
    SkipNoSpace(after);
  }

  /** A printed value, followed by anything that cannot continue it, is read
      back with that rest left over. */
  lemma {:induction false} ReadPrintedValue(v: Value, rest: string)
    requires Ends(rest)
    ensures ReadValue(Print(v) + rest) == Some((v, rest))
    decreases v, 1
  {
    var s := Print(v) + rest;
    PrintStart(v);
    SkipNoSpace(s);
    match v
    case Null =>
      assert s[..4] == "null" && s[4..] == rest;
    case Bool(b) =>
      if b {
        assert s[..4] == "true" && s[4..] == rest;
      } else {
        assert s[..5] == "false" && s[5..] == rest;
      }
    case Number(n) =>
      ReadIntegerText(n, rest);
      if n >= 0 {
        assert NaturalText(n)[0] == s[0];
      }
    case String(str) =>
      ReadQuote(str, rest);
    case Array(items) =>
      Unwrap("[", PrintItems(items), rest);
      assert ReadItems(s[1..]) == Some((items, rest)) by {
        ReadPrintedItems(items, rest);
      }
    case Object(members) =>
      Unwrap("{", PrintMembers(members), rest);
      assert ReadMembers(s[1..]) == Some((members, rest)) by {
        ReadPrintedMembers(members, rest);
      }
  }

  lemma {:induction false} ReadPrintedItems(items: seq<Value>, rest: string)
    ensures ReadItems(PrintItems(items) + rest) == Some((items, rest))
    decreases items, 2
  {
    var s := PrintItems(items) + rest;
    if items == [] {
      ClosingStep(s, rest);
    } else {
      var more := PrintMoreItems(items[1..]) + rest;
      assert s == Print(items[0]) + more && s != [] && !IsSpace(s[0]) && s[0] != ']' by {
        PrintStart(items[0]);
      }
      assert ReadValue(s) == Some((items[0], more)) by {
        MoreItemsStart(items[1..]);
        ReadPrintedValue(items[0], more);
      }
      assert ReadMoreItems(more) == Some((items[1..], rest)) by {
        ReadPrintedMoreItems(items[1..], rest);
      }
      ItemsStep(s, items[0], items[1..], more, rest);
      HeadTail(items);
    }
  }

  lemma MoreItemsShape(items: seq<Value>, rest: string)
    requires items != []
    ensures var s := PrintMoreItems(items) + rest;
      s != [] && s[0] == ',' && s[1..] == Print(items[0]) + (PrintMoreItems(items[1..]) + rest)
  {
    Regroup(",", Print(items[0]), PrintMoreItems(items[1..]), rest);
  }

  lemma MoreItemsStart(items: seq<Value>)
    ensures PrintMoreItems(items) != [] && (PrintMoreItems(items)[0] == ',' || PrintMoreItems(items)[0] == ']')
  {
  }

  lemma {:induction false} ReadPrintedMoreItems(items: seq<Value>, rest: string)
    ensures ReadMoreItems(PrintMoreItems(items) + rest) == Some((items, rest))
    decreases items, 1
  {
    var s := PrintMoreItems(items) + rest;
    if items == [] {
      ClosingStep(s, rest);
    } else {
      var more := PrintMoreItems(items[1..]) + rest;
      assert s != [] && s[0] == ',' by {
        MoreItemsShape(items, rest);
      }
      assert ReadValue(s[1..]) == Some((items[0], more)) by {
        MoreItemsShape(items, rest);
        MoreItemsStart(items[1..]);
        ReadPrintedValue(items[0], more);
      }
      assert ReadMoreItems(more) == Some((items[1..], rest)) by {
        ReadPrintedMoreItems(items[1..], rest);
      }
      MoreItemsStep(s, items[0], items[1..], more, rest);
      HeadTail(items);
    }
  }

  lemma {:induction false} ReadPrintedMember(m: Member, rest: string)
    requires Ends(rest)
    ensures ReadMember(PrintMember(m) + rest) == Some((m, rest))
    decreases m, 1
  {
    var after := ":" + Print(m.value) + rest;
    Unwrap(":", Print(m.value), rest);
    assert PrintMember(m) + rest == Quote(m.key) + after by {
      Regroup3(Quote(m.key), ":", Print(m.value), rest);
    }
    assert ReadValue(after[1..]) == Some((m.value, rest)) by {
      ReadPrintedValue(m.value, rest);
    }
    MemberStep(m.key, after, m.value, rest);
  }

  lemma MoreMembersShape(members: seq<Member>, rest: string)
    requires members != []
    ensures var s := PrintMoreMembers(members) + rest;
      s != [] && s[0] == ',' && s[1..] == PrintMember(members[0]) + (PrintMoreMembers(members[1..]) + rest)
  {
    Regroup(",", PrintMember(members[0]), PrintMoreMembers(members[1..]), rest);
  }

  lemma MoreMembersStart(members: seq<Member>)
    ensures PrintMoreMembers(members) != [] && (PrintMoreMembers(members)[0] == ',' || PrintMoreMembers(members)[0] == '}')
  {
  }

  lemma MembersShape(members: seq<Member>, rest: string)
    requires members != []
    ensures var s := PrintMembers(members) + rest;
      s == PrintMember(members[0]) + (PrintMoreMembers(members[1..]) + rest) && s != [] && s[0] == '"'
  {
    var a, b := PrintMember(members[0]), PrintMoreMembers(members[1..]);
    assert PrintMembers(members) == a + b;
    assert (a + b) + rest == a + (b + rest);
    assert a[0] == '"';
  }

  lemma {:induction false} ReadPrintedMembers(members: seq<Member>, rest: string)
    ensures ReadMembers(PrintMembers(members) + rest) == Some((members, rest))
    decreases members, 2
  {
    var s := PrintMembers(members) + rest;
    if members == [] {
      ClosingStep(s, rest);
    } else {
      var more := PrintMoreMembers(members[1..]) + rest;
      assert s == PrintMember(members[0]) + more && s != [] && s[0] == '"' by {
        MembersShape(members, rest);
      }
      assert ReadMember(s) == Some((members[0], more)) by {
        MoreMembersStart(members[1..]);
        ReadPrintedMember(members[0], more);
      }
      assert ReadMoreMembers(more) == Some((members[1..], rest)) by {
        ReadPrintedMoreMembers(members[1..], rest);
      }
      MembersStep(s, members[0], members[1..], more, rest);
      HeadTail(members);
    }
  }

  lemma {:induction false} ReadPrintedMoreMembers(members: seq<Member>, rest: string)
    ensures ReadMoreMembers(PrintMoreMembers(members) + rest) == Some((members, rest))
    decreases members, 1
  {
    var s := PrintMoreMembers(members) + rest;
    if members == [] {
      ClosingStep(s, rest);
    } else {
      var more := PrintMoreMembers(members[1..]) + rest;
      assert s != [] && s[0] == ',' by {
        MoreMembersShape(members, rest);
      }
      assert ReadMember(s[1..]) == Some((members[0], more)) by {
        MoreMembersShape(members, rest);
        MoreMembersStart(members[1..]);
        ReadPrintedMember(members[0], more);
      }
      assert ReadMoreMembers(more) == Some((members[1..], rest)) by {
        ReadPrintedMoreMembers(members[1..], rest);
      }
      MoreMembersStep(s, members[0], members[1..], more, rest);
      HeadTail(members);
    }
  }

  lemma {:induction false} SkipAllSpace(s: string)
    requires forall i :: 0 <= i < |s| ==> IsSpace(s[i])
    ensures SkipSpace(s) == []
    decreases |s|
  {
    if s != [] {
      SkipAllSpace(s[1..]);
    }
  }

  /** Printing a value and reading the text back, with any trailing
      whitespace such as the newline `json.Encoder` adds, gives the value. */
  lemma ReadPrinted(v: Value, trailing: string)
    requires forall i :: 0 <= i < |trailing| ==> IsSpace(trailing[i])
    ensures Read(Print(v) + trailing) == Some(v)
  {
    assert trailing != [] ==> IsSpace(trailing[0]);
    ReadPrintedValue(v, trailing);
    SkipAllSpace(trailing);
  }
}
