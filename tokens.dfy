/** The OAuth 2 token the command line caches and refreshes (`oauth2.Token`
    of `golang.org/x/oauth2`, which `internal/auth` stores and passes
    around): its validity check and its JSON form, the text of the token
    cache file. */
module Tokens {
  import opened Wrappers
  import opened Chrono
  import opened SchemaJson
  import J = Json

  /** `oauth2.Token`: the fields that reach the cache file. */
  datatype Token = Token(accessToken: string, tokenType: string, refreshToken: string, expiry: Time)

  /** The token `json.Unmarshal` starts from. */
  const ZeroToken := Token("", "", "", ZeroTime)

  /** `oauth2`'s `expiryDelta`: a token counts as expired ten seconds early. */
  const ExpiryDeltaSeconds := 10

  /** `Token.Valid` at the instant `now`: an access token is present, and
      the token either never expires or expires more than ten seconds
      after `now`. */
  predicate Valid(t: Token, now: Time) {
    t.accessToken != "" && (IsZero(t.expiry) || !Before(AddSeconds(t.expiry, -ExpiryDeltaSeconds), now))
  }

  /** A token whose expiry has passed is not valid, nor is one without an
      access token; one that never expires is valid while it has one. */
  lemma ExpiredIsInvalid(t: Token, now: Time)
    ensures !IsZero(t.expiry) && Before(t.expiry, now) ==> !Valid(t, now)
    ensures t.accessToken == "" ==> !Valid(t, now)
    ensures IsZero(t.expiry) ==> (Valid(t, now) <==> t.accessToken != "")
  {
  }

  // ------------------------------------------------------------ JSON form

  const TokenNames := ["access_token", "token_type", "refresh_token", "expiry"]

  function SetAccessToken(v: J.Value, t: Token): Result<Token, DecodeError> {
    var s :- DecodeString(v, t.accessToken, "access_token");
    Ok(t.(accessToken := s))
  }

  function SetTokenType(v: J.Value, t: Token): Result<Token, DecodeError> {
    var s :- DecodeString(v, t.tokenType, "token_type");
    Ok(t.(tokenType := s))
  }

  function SetRefreshToken(v: J.Value, t: Token): Result<Token, DecodeError> {
    var s :- DecodeString(v, t.refreshToken, "refresh_token");
    Ok(t.(refreshToken := s))
  }

  function SetExpiry(v: J.Value, t: Token): Result<Token, DecodeError> {
    var e :- DecodeTime(v, t.expiry);
    Ok(t.(expiry := e))
  }

  const TokenSetters: seq<Setter<Token>> := [SetAccessToken, SetTokenType, SetRefreshToken, SetExpiry]

  /** A string member that `omitempty` leaves out when it is empty. */
  function OmitEmpty(key: string, s: string): seq<J.Member> {
    if s == "" then [] else [J.Member(key, J.String(s))]
  }

  /** The members in the order of the struct's fields; `expiry` is a
      struct, which `omitempty` never leaves out. */
  function TokenMembers(t: Token, expiry: J.Value): seq<J.Member> {
    [J.Member("access_token", J.String(t.accessToken))]
    + OmitEmpty("token_type", t.tokenType)
    + OmitEmpty("refresh_token", t.refreshToken)
    + [J.Member("expiry", expiry)]
  }

  function EncodeToken(t: Token): Result<J.Value, EncodeError> {
    var expiry :- EncodeTime(t.expiry);
    Ok(J.Object(TokenMembers(t, expiry)))
  }

  function DecodeToken(v: J.Value, into: Token): Result<Token, DecodeError> {
    DecodeStruct(v, into, TokenNames, TokenSetters, "token")
  }

  /** `json.MarshalIndent(token, "", "  ")`, written without the
      indentation. */
  function MarshalToken(t: Token): Result<string, EncodeError> {
    var v :- EncodeToken(t);
    Ok(J.Print(v))
  }

  /** `json.Unmarshal` of the file's text into a zero token. */
  function UnmarshalToken(text: string): Result<Token, DecodeError> {
    match J.Read(text)
    case None => Err(SyntaxError)
    case Some(v) => DecodeToken(v, ZeroToken)
  }

  /** The members of an object, read one list after another. */
  lemma {:induction false} DecodeMembersAppend<T>(a: seq<J.Member>, b: seq<J.Member>, into: T,
                                                   names: seq<string>, setters: seq<Setter<T>>)
    ensures DecodeMembers(a + b, into, names, setters)
         == match DecodeMembers(a, into, names, setters)
            case Err(e) => Err(e)
            case Ok(next) => DecodeMembers(b, next, names, setters)
    decreases |a|
  {
    if a == [] {
      assert a + b == b;
    } else {
      assert (a + b)[0] == a[0] && (a + b)[1..] == a[1..] + b;
      match DecodeMember(a[0], into, names, setters)
      case Err(_) =>
      case Ok(next) => DecodeMembersAppend(a[1..], b, next, names, setters);
    }
  }

  /** An optional string member sets its field, or leaves it as it was when
      left out. */
  lemma OmitEmptyRead(key: string, s: string, k: nat, into: Token, next: Token)
    requires k < 4 && key == TokenNames[k]
    requires s == "" ==> next == into
    requires s != "" ==> TokenSetters[k](J.String(s), into) == Ok(next)
    ensures DecodeMembers(OmitEmpty(key, s), into, TokenNames, TokenSetters) == Ok(next)
  {
    if s != "" {
      DecodeMembersStep(OmitEmpty(key, s), into, next, TokenNames, TokenSetters, k);
    }
  }

  /** The members written for `t` read back into a zero token as `t`,
      when its expiry reads back as itself. */
  lemma TokenMembersRead(t: Token, expiry: J.Value)
    requires forall into :: DecodeTime(expiry, into) == Ok(t.expiry)
    ensures DecodeMembers(TokenMembers(t, expiry), ZeroToken, TokenNames, TokenSetters) == Ok(t)
  {
    var first := [J.Member("access_token", J.String(t.accessToken))];
    var kind := OmitEmpty("token_type", t.tokenType);
    var refresh := OmitEmpty("refresh_token", t.refreshToken);
    var last := [J.Member("expiry", expiry)];
    var t1 := ZeroToken.(accessToken := t.accessToken);
    var t2 := t1.(tokenType := t.tokenType);
    var t3 := t2.(refreshToken := t.refreshToken);
    var names, setters := TokenNames, TokenSetters;
    assert DecodeMembers(first, ZeroToken, names, setters) == Ok(t1) by {
      DecodeMembersStep(first, ZeroToken, t1, names, setters, 0);
    }
    assert DecodeMembers(first + kind, ZeroToken, names, setters) == Ok(t2) by {
      OmitEmptyRead("token_type", t.tokenType, 1, t1, t2);
      DecodeMembersAppend(first, kind, ZeroToken, names, setters);
    }
    assert DecodeMembers(first + kind + refresh, ZeroToken, names, setters) == Ok(t3) by {
      OmitEmptyRead("refresh_token", t.refreshToken, 2, t2, t3);
      DecodeMembersAppend(first + kind, refresh, ZeroToken, names, setters);
    }
    assert DecodeMembers(first + kind + refresh + last, ZeroToken, names, setters) == Ok(t) by {
      assert SetExpiry(expiry, t3) == Ok(t);
      DecodeMembersStep(last, t3, t, names, setters, 3);
      DecodeMembersAppend(first + kind + refresh, last, ZeroToken, names, setters);
    }
  }

  /** The text `Save` writes reads back, through `Load`, as the same
      token: access token, type, refresh token and expiry, for expiries
      with four-digit years in whole-minute zones. */
  lemma TokenRoundTrip(t: Token)
    requires Portable(t.expiry)
    ensures MarshalToken(t).Ok?
    ensures UnmarshalToken(MarshalToken(t).value) == Ok(t)
  {
    var expiry := EncodeTime(t.expiry).value by {
      TimeRoundTrip(t.expiry, ZeroTime);
    }
    forall into
      ensures DecodeTime(expiry, into) == Ok(t.expiry)
    {
      TimeRoundTrip(t.expiry, into);
    }
    TokenMembersRead(t, expiry);
    var v := J.Object(TokenMembers(t, expiry));
    J.ReadPrinted(v, "");
    assert J.Print(v) + "" == J.Print(v);
  }

  /** Saving fails exactly when the expiry cannot be written. */
  lemma MarshalTokenOk(t: Token)
    ensures MarshalToken(t).Ok? <==> WritableTime(t.expiry)
  {
    EncodeTimeOk(t.expiry);
  }
}
