# outlook-md in Dafny

A model of the core of `outlook-md`. This command-line tool signs in to Microsoft Graph with the OAuth 2 device flow. It fetches the calendar events of today, tomorrow or the current week and prints them as version-1 JSON.

The model covers these parts, with properties proved about each:

- **Sign-in.** Where the Azure application's IDs come from: the macOS Keychain first, then the environment (`Config`).
- **Token reuse.** The cached OAuth token:
  - held in a file store class (`Cache`);
  - checked and refreshed by a `TokenSource` class (`DeviceFlow`);
  - replaced through the device flow when needed.
- **Access-token priority.** `getAccessToken` tries the environment, then the cache, then the device flow (`Command`).
- **Query windows.**
  - today;
  - tomorrow;
  - the Monday-to-Monday week (`Command`, over `Chrono`'s instants and fixed-offset zones).
- **The Graph calendar view.**
  - the request's query and headers;
  - the status and decode branches;
  - the conversion of Graph's wire events, including Graph's two date-time forms (`Client`, `Rfc3339`);
  - the attendee order (`Events`);
  - the two library sorts (`Sorting`).
- **The output schema.**
  - its types and attendee-type check (`Schema`);
  - its JSON text and the round trip through `encoding/json` (`Json`, `SchemaJson`, `Tokens`).

**State-changing code.** The code that changes state in place is written as imperative Dafny:

- the file store, the token cache and the token source are classes;
- the attendee sort and the event sort are an in-place insertion sort on an array;
- the event conversion is a loop over the wire events;
- the configuration load is a sequence of conditional assignments followed by two checks.

Each of these is proved against a specification function. The properties are stated and proved about those functions.

**What is taken as input.** Everything outside the program is a parameter:

- the clock: one instant `now`;
- the time-zone database: a fixed offset per name;
- the Keychain lookups and the environment variables;
- the file system: a map from paths to files, plus the paths that cannot be read or written;
- the identity provider: functions for the device authorization, the polling and the refresh;
- Graph itself: a function from the request to the response.

## Model

| member | source | states |
|---|---|---|
| Events.TypeRankOrder | outlook-md/internal/calendar/events.go:18-23 | the rank map knows exactly the three valid types, ranks optional 1 and resource 2, and ranks any other type with "required" (Go's zero value for a missing key) |
| Events.ToLowerIdempotent | outlook-md/internal/calendar/events.go:26-34 | lower-casing twice is lower-casing once and leaves no upper-case ASCII letter |
| Events.StrLessTotal | outlook-md/internal/calendar/events.go:28-35 | Go's `<` on strings is total and asymmetric: exactly one of `a < b`, `a == b`, `b < a` |
| Events.EquivIsSameKey | outlook-md/internal/calendar/events.go:14-36 | the comparator leaves two attendees unordered exactly when their type rank, lower-cased e-mail and lower-cased name agree |
| Events.LessIsStrictWeakOrder | outlook-md/internal/calendar/events.go:14-36 | the three-key comparator is irreflexive and transitive, and its incomparability is transitive, as `sort.SliceStable` requires |
| Events.SortAttendees | outlook-md/internal/calendar/events.go:13-37 | after the in-place sort the array holds the stable sort of its old contents under the three-key comparator |
| Events.SortedAttendees | outlook-md/internal/calendar/events.go:13-37 | the sorted attendees are ordered by type, then e-mail, then name (case-insensitively); they are a permutation of the input; attendees with equal keys keep their input order; and sorting again changes nothing |
| Events.SliceStableResult | outlook-md/internal/calendar/events.go:14 | any sorted, order-preserving permutation of the attendees is the one the model computes, so the order is deterministic |
| Events.TypesInOrder | outlook-md/internal/calendar/events.go:17-23 | after sorting no attendee of a lower-ranked type follows one of a higher-ranked type |
| Events.EmailIgnoresCase | outlook-md/internal/calendar/events.go:25-30 | "Alice@…", "bob@…", "charlie@…" sort in that order although 'A' sorts before 'b' and 'c' only once lower-cased |
| Sorting.SortByPermutes | outlook-md/internal/calendar/events.go:14 | the sort returns a permutation of its input |
| Sorting.SortBySorted | outlook-md/internal/calendar/events.go:14 | for an irreflexive, transitive comparator the result is non-decreasing |
| Sorting.SortByStable | outlook-md/internal/calendar/events.go:14 | the elements equivalent to any `y` appear in the output in their input order |
| Sorting.SortByIdempotent | outlook-md/internal/calendar/events.go:14 | sorting a sorted sequence returns it unchanged |
| Sorting.SortByIsTheStableSort | outlook-md/internal/calendar/events.go:14 | a sorted, order-preserving permutation is unique: it equals the specification sort |
| Sorting.InsertionSort | outlook-md/internal/calendar/client.go:197-199 | the in-place sort leaves the array equal to the specification sort of its old contents |
| Client.LoadLocation | outlook-md/internal/calendar/client.go:148-151 | "" and "UTC" load as UTC; any other name except "Local" loads exactly when the zone table has it, with that offset |
| Client.ParseDateTime | outlook-md/internal/calendar/client.go:205-219 | succeeds exactly when the text is RFC 3339 or zone-less `2006-01-02T15:04:05`; RFC 3339 text gives its instant shown in `loc`; an error quotes the text |
| Client.ParseDateTimeWithOffset | outlook-md/internal/calendar/client.go:207-210 | RFC 3339 text with an offset is read as that instant, moved to the target zone |
| Client.ZoneLessIsNotRFC3339 | outlook-md/internal/calendar/client.go:206-213 | text the zone-less layout reads always fails the RFC 3339 attempt, so the second branch is the one that reads it |
| Client.ZoneLessIsWallClock | outlook-md/internal/calendar/client.go:212-218 | Graph's zone-less text for a time, read in a zone with the same offset, is that time, the same as its RFC 3339 text |
| Client.ConvertEventKeeps | outlook-md/internal/calendar/client.go:153-193 | an event converts exactly when both times parse, and a start failure is reported first; errors name the event; a converted event keeps every scalar field and the organiser; its attendees are a present, sorted permutation of the wire attendees |
| Client.BuildEvent | outlook-md/internal/calendar/client.go:165-191 | copying the attendees into a new array by index, sorting it in place and building the event gives the event with the attendees in `sortAttendees` order |
| Client.StartsBeforeIsStrictWeakOrder | outlook-md/internal/calendar/client.go:197-199 | ordering events by start instant is a strict weak order |
| Client.SortByStart | outlook-md/internal/calendar/client.go:196-199 | the events come back sorted by start |
| Client.ParseCalendarEvents | outlook-md/internal/calendar/client.go:144-202 | an unknown zone fails first; otherwise the first event that does not convert fails the call with its error; if every event converts the result is a non-nil list that is a permutation of the converted events, non-decreasing by start |
| Client.FailureIsParsedAs | outlook-md/internal/calendar/client.go:155-163 | an error at an event, after all earlier events converted, is the promised outcome |
| Client.SuccessIsParsedAs | outlook-md/internal/calendar/client.go:193-201 | the converted events, sorted by start, are the promised outcome |
| Client.NoEventsGiveEmptyList | outlook-md/internal/calendar/client.go:145 | no wire events in a known zone give an empty list, never nil |
| Client.RequestCarriesWindow | outlook-md/internal/calendar/client.go:62-65 | the query has exactly `startDateTime` and `endDateTime`, and each reads back as the window's bound truncated to the second |
| Client.RequestCarriesTokenAndZone | outlook-md/internal/calendar/client.go:73-76 | the headers are exactly Authorization, Prefer and Content-Type; Authorization is "Bearer " and the client's token; Prefer quotes the caller's zone |
| Client.GetCalendarView | outlook-md/internal/calendar/client.go:53-105 | the request is the calendar-view request for the window; no response, a non-200 status (with its body) and an undecodable body are distinct errors; otherwise the outcome is that of `parseCalendarEvents` |
| Client.ViewOutcomes | outlook-md/internal/calendar/client.go:85-104 | events come only from a 200 response whose body decodes, one per wire event and never nil; an empty `value` gives an empty list |
| Rfc3339.ParseFormatNano | outlook-md/internal/calendar/client.go:207-209 | RFC 3339 text with nanoseconds, read with `time.RFC3339`, gives back the same instant in the same offset |
| Rfc3339.ParseFormat | outlook-md/internal/calendar/client.go:63-64 | `Format(time.RFC3339)` drops the fraction: its text reads back as the time truncated to the second |
| Rfc3339.ParseDateTimeRoundTrip | outlook-md/internal/calendar/client.go:213 | zone-less text, with any fraction, read in a zone with the time's offset gives the time back |
| Rfc3339.FractionRoundTrip | outlook-md/internal/calendar/client.go:207 | the fraction `.999999999` writes for a non-zero nanosecond count is one to nine digits and reads back as that count |
| Json.ReadPrinted | outlook-md/internal/auth/token_cache.go:26-50 | printing any JSON value and reading it back, with any trailing whitespace, gives the value |
| Schema.IsValidExactly | outlook-md/pkg/schema/v1.go:54-62 | `IsValid` holds exactly for "required", "optional" and "resource"; it fails for "" and for "Required" |
| SchemaJson.EncodeTimeOk | outlook-md/pkg/schema/v1.go:15-25 | a time can be written exactly when its year has four digits and its zone hour is below 24, and it is then written as a string |
| SchemaJson.TimeRoundTrip | outlook-md/pkg/schema/v1.go:15-16 | a time with a four-digit year and a whole-minute offset reads back as itself |
| SchemaJson.OrganizerRoundTrip | outlook-md/pkg/schema/v1.go:32-35 | an organiser's JSON object read into any organiser gives it back |
| SchemaJson.AttendeeRoundTrip | outlook-md/pkg/schema/v1.go:38-42 | an attendee's JSON object, with `kind` under the key "type", read into any attendee gives it back |
| SchemaJson.AttendeesRoundTrip | outlook-md/pkg/schema/v1.go:28 | an attendee list reads back as itself: nil as nil (`null`), empty as empty (`[]`) |
| SchemaJson.EventRoundTrip | outlook-md/pkg/schema/v1.go:20-29 | an event's JSON object read into any event gives it back, field by field |
| SchemaJson.EventsRoundTrip | outlook-md/pkg/schema/v1.go:10 | an event list reads back as itself, nil and empty kept apart |
| SchemaJson.WindowRoundTrip | outlook-md/pkg/schema/v1.go:14-17 | a window reads back as itself |
| SchemaJson.MarshalOk | outlook-md/pkg/schema/v1.go:6-11 | the output can be written exactly when all its times can be |
| SchemaJson.RoundTrip | tests/go/schema_test.go:89-111 | the printed output, unmarshalled into a zero output, is the same output |
| SchemaJson.RoundTripKeepsChecks | tests/go/schema_test.go:14-111 | after the round trip the version and event count agree; an empty event list stays present and empty; a well-formed output stays well-formed |
| Tokens.ExpiredIsInvalid | outlook-md/internal/auth/device_flow.go:95 | a token whose expiry has passed is invalid, as is one without an access token; a token that never expires is valid while it has one |
| Tokens.TokenRoundTrip | outlook-md/internal/auth/token_cache.go:24-56 | the text `Save` writes reads back through `Load`'s unmarshal as the same token |
| Tokens.MarshalTokenOk | outlook-md/internal/auth/token_cache.go:26-29 | marshalling a token fails exactly when its expiry cannot be written |
| Cache.FileStore.ReadFile | outlook-md/internal/auth/token_cache.go:43-46 | reading a missing path is `NotExist`; an unreadable path is another error; otherwise the file's text |
| Cache.FileStore.WriteFile | outlook-md/internal/auth/token_cache.go:32-35 | a write succeeds exactly when the path is writable; the file's text is replaced; mode 0600 is used only for a new file; a failed write changes nothing |
| Cache.TokenCache.constructor | outlook-md/internal/auth/token_cache.go:17-21 | the cache keeps the file path it was given |
| Cache.TokenCache.Save | outlook-md/internal/auth/token_cache.go:24-38 | the result and the new files are those of marshalling the token and writing it with mode 0600 |
| Cache.TokenCache.Load | outlook-md/internal/auth/token_cache.go:41-56 | a read error is passed on as it is; unparseable text is an unmarshal error; otherwise the stored token |
| Cache.SaveThenLoad | outlook-md/internal/auth/token_cache.go:24-56 | `Save` then `Load` on a readable, writable path gives back the token saved |
| Cache.SaveReplaces | outlook-md/internal/auth/token_cache.go:31-35 | `Save` replaces only the cache file, gives a new file mode 0600, keeps an existing file's mode, and reports a failed write with nothing changed |
| Cache.LoadErrors | outlook-md/internal/auth/token_cache.go:43-53 | the not-exist error comes exactly from a missing file; text that is not JSON is a syntax error |
| DeviceFlow.ScopesAgree | outlook-md/internal/auth/device_flow.go:20-90 | both constructors ask for exactly "Calendars.Read" and "offline_access" |
| DeviceFlow.Authenticate | outlook-md/internal/auth/device_flow.go:32-63 | a failed device authorization is an error; otherwise the token is the poll's, and a failed poll is a different error |
| DeviceFlow.TokenResultOutcomes | outlook-md/internal/auth/device_flow.go:93-104 | a valid token is returned as it is; an invalid one succeeds exactly when the refresh does, with the refreshed token; an expired one always goes to the refresh |
| DeviceFlow.TokenSource.constructor | outlook-md/internal/auth/device_flow.go:73-90 | the source holds the token and the cache, and is configured with the tenant's endpoint and the two scopes |
| DeviceFlow.TokenSource.Token | outlook-md/internal/auth/device_flow.go:93-118 | returns the held token while it is valid; otherwise refreshes once. A successful refresh replaces the held token and saves it to the cache if there is one. A failed refresh changes nothing, and a failed save does not fail the call |
| Config.Load | outlook-md/internal/config/config.go:18-51 | the conditional assignments (Keychain value, else environment variable) and the two checks in order give the configuration `Configured` describes |
| Config.ConfiguredPriority | outlook-md/internal/config/config.go:21-48 | success exactly when both IDs are found; each ID comes from the Keychain when it has a non-empty value without error, else from the environment; the client ID is checked before the tenant ID |
| Config.EnvironmentOnlyOffDarwin | outlook-md/internal/config/config.go:22-40 | off macOS only the environment variables decide |
| Command.SignIn | outlook-md/cmd/outlook-md/main.go:161-175 | the device flow's token is returned and saved; its failure is an error that writes nothing |
| Command.Reuse | outlook-md/cmd/outlook-md/main.go:146-147 | the cached token goes through a new token source for the configured application |
| Command.FromCache | outlook-md/cmd/outlook-md/main.go:142-175 | a cached token that is valid or refreshes is used; a missing file or a failed refresh leads to the device flow; any other load error is fatal |
| Command.GetAccessToken | outlook-md/cmd/outlook-md/main.go:113-176 | the result and the files afterwards are those of the priority chain: environment, configuration, home directory, cache directory, cache, device flow |
| Command.EnvironmentTokenWins | outlook-md/cmd/outlook-md/main.go:114-118 | a token in the environment is returned before anything is read, and no file changes |
| Command.ValidCacheNeedsNoSignIn | outlook-md/cmd/outlook-md/main.go:143-155 | a valid cached token is returned without calling the identity provider and without writing |
| Command.DeviceFlowOnlyWhenNeeded | outlook-md/cmd/outlook-md/main.go:143-164 | the device flow runs when the cache file is missing or the refresh fails; an unreadable or corrupt cache is an error instead |
| Command.FailureWritesNothing | outlook-md/cmd/outlook-md/main.go:113-176 | when `getAccessToken` fails, no file has changed |
| Command.SignInIsRemembered | outlook-md/cmd/outlook-md/main.go:161-175 | after a device-flow sign-in, a later run that finds the saved token still valid returns it without signing in, whatever the provider does |
| Command.WithinDay | outlook-md/cmd/outlook-md/main.go:104-105 | the midnight starting an instant's local day is not after it, and the next midnight is after it |
| Command.DayWindows | outlook-md/cmd/outlook-md/main.go:103-198 | today's window starts at a local midnight, lasts 24 hours and holds now; tomorrow's starts where today's ends, on the next local day, and lasts 24 hours |
| Command.DaysUntilMonday | outlook-md/cmd/outlook-md/main.go:223-227 | the offset is between -6 and 0 and lands on a Monday (Sunday belongs to the week before) |
| Command.WeekWindow | outlook-md/cmd/outlook-md/main.go:220-232 | the window runs from a local Monday midnight to the midnight seven days later, and holds now |
| Command.WeekStartsMonday | outlook-md/cmd/outlook-md/main.go:228-229 | midnight of the day the offset lands on is a Monday |
| Command.WeekIsUnique | outlook-md/cmd/outlook-md/main.go:219-232 | only one window meets the week conditions for a given now |
| Command.GetActualTimezone | outlook-md/cmd/outlook-md/main.go:238-253 | a name other than "Local" passes through; "Local" becomes the abbreviation when it is longer than three letters, else the zone's name unless that is "Local", else "UTC" |
| Command.FetchAndOutputEvents | outlook-md/cmd/outlook-md/main.go:256-282 | the files afterwards are those `getAccessToken` leaves; an access-token failure is an authentication error; otherwise the output is version 1, the zone name, the window and the calendar view's events, and a view failure is a fetch error |
| Command.HandleCommand | outlook-md/cmd/outlook-md/main.go:88-235 | a format other than "json" and an unknown zone are errors before anything is fetched or written; otherwise the files afterwards are those `getAccessToken` leaves, and the outcome is that of fetching the command's window (today, tomorrow or the week of now) under the name `getActualTimezone` settles on; a success is version 1 with that zone name, that window and a present event list |
| Command.LongAbbreviationFailsToLoad | outlook-md/cmd/outlook-md/main.go:241-244 | with `--tz Local`, an abbreviation longer than three letters that the zone table does not know is sent to Graph and then fails `LoadLocation` in `parseCalendarEvents` (client.go:148-151), so a 200 reply, even with no events, ends in the invalid-time-zone error |
| Rfc3339.HourTakesOneDigit | outlook-md/internal/calendar/client.go:207 | the hour element of `time.RFC3339` reads a single digit |
| Rfc3339.CommaStartsFraction | outlook-md/internal/calendar/client.go:207 | a comma followed by a digit starts a fraction of the seconds |
| Rfc3339.ZoneHourUpTo24 | outlook-md/internal/calendar/client.go:207 | the zone element reads `+24:00` and `+01:60` |
| Chrono.CivilFromDaysInverts | outlook-md/cmd/outlook-md/main.go:105 | each day number names exactly one date, so year, month and day fix the day |
| Chrono.Midnight | outlook-md/cmd/outlook-md/main.go:105 | `time.Date(y, m, d, 0, 0, 0, 0, loc)` is in `loc`'s offset at a whole local day |

## Left out

- Time zones are fixed offsets. `time.LoadLocation` reads a table from names to one offset each, so daylight-saving changes inside a window are not modelled, and a "24 hour" day is always 86400 seconds.
- The clock is one parameter `now` for all reads of `time.Now()` in one command. `now.Zone()`'s abbreviation in `getActualTimezone` is a separate input.
- HTTP, the Graph server and `json.NewDecoder` on the response are one function from request to response. The response carries the decoded `value` or nothing.
- URL encoding of the query and the 30-second client timeout are not modelled; the query is kept as a map before encoding.
- The `golang.org/x/oauth2` requests (device authorization, polling, refresh) are functions passed in. Their internals are not modelled: the reuse token source, retries and the `expires_in` arithmetic.
- A nil `*oauth2.Token` is not modelled; tokens are values.
- The `security` command behind the Keychain is not modelled. Its exit codes 44 and 36 and the trimming of its output are folded into each lookup's result, an error or the trimmed text.
- The file system is a map from paths to text.
  - `os.UserHomeDir` is a `Result` input, and `os.MkdirAll` is a boolean input.
  - `filepath.Join` is plain concatenation with "/", without cleaning.
  - A write that fails part-way is treated as failing without a change.
- The messages printed on standard error (the device-code prompt and the warnings) are not modelled. Neither are the version and help flags, `printUsage` and the unknown-command branch.
- `output.FormatJSON` (formatter.go) writes indented JSON; the model prints compact JSON. The indentation does not change what is read back, and it is not modelled.
- Command.FetchAndOutputEvents: ends at the `CLIOutput` value. The call to `output.FormatJSON` (main.go:284-287) and its "failed to format output" error are not modelled, whether from a time `MarshalJSON` refuses or from a failed write to standard output; `SchemaJson.MarshalOk` states when marshalling the value fails.
- SchemaJson.DecodeTime: reads the string after JSON unescaping. Go's `Time.UnmarshalJSON` parses the raw bytes between the quotes, so an expiry written with escape sequences is accepted here but refused by Go; `Cache.TokenCache.Load` inherits this. Go and the model agree on texts without escapes, which is all that `Time.MarshalJSON` writes.
- The token file's indentation, from `json.MarshalIndent`, is not modelled either.
- JSON numbers are integers only, as every number in these types is.
  - `Json.ReadPrinted`: reading a printed value back is proved; the reader does not accept fractions or exponents.
  - `SchemaJson.RoundTrip`: proved for a version within 64 bits.
- `SchemaJson.RoundTrip` and `Tokens.TokenRoundTrip` require four-digit years and whole-minute offsets. Go writes offsets only to the minute, so other times do not read back unchanged.
- `Events.ToLower` folds ASCII letters only; Unicode case folding is not modelled.
- `Sorting.InsertionSort` models both library sorts.
  - `sort.SliceStable` promises exactly its order.
  - For `sort.Slice` (`Client.ParseCalendarEvents`) only sortedness and permutation are stated; the order of events with equal starts is not promised.
- Events are not filtered: the code keeps every event the calendar view returns, including events whose only participant is the organiser.
