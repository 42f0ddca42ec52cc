/** The command line of `cmd/outlook-md/main.go`: the `today`, `tomorrow`
    and `week` commands check the format, load the zone, resolve the zone
    name sent to Graph, compute the window, obtain an access token and
    fetch the window's events into a `CLIOutput`. The clock, the zone
    abbreviation of the local zone, the environment, the OAuth 2 requests
    and the Graph transport are inputs. */
module Command {
  import opened Wrappers
  import opened Chrono
  import opened Schema
  import Client
  import Config
  import Tokens
  import Cache
  import DeviceFlow
  import SchemaJson

  // ------------------------------------------------------------ the token

  /** Why `getAccessToken` fails. */
  datatype AccessError =
    | ConfigFailed(configError: Config.ConfigError)
    | HomeDirFailed(homeError: string)
    | CacheDirFailed
    | CacheLoadFailed(loadError: Cache.LoadError)
    | AuthFailed(authError: DeviceFlow.AuthError)

  /** What `getAccessToken` reads besides the cache file:
      `OUTLOOK_MD_ACCESS_TOKEN` ("" when unset), what `config.Load` reads,
      `os.UserHomeDir`, and whether `os.MkdirAll` of the cache directory
      succeeds. */
  datatype Environment = Environment(
    accessToken: string,
    sources: Config.Sources,
    homeDir: Result<string, string>,
    cacheDirOk: bool)

  /** The identity provider: the refresh request, the device authorization
      request and the polling for its token. */
  datatype Provider = Provider(
    refresh: (DeviceFlow.OAuthConfig, Tokens.Token) -> Result<Tokens.Token, string>,
    deviceAuth: DeviceFlow.OAuthConfig -> Result<DeviceFlow.DeviceCode, string>,
    poll: (DeviceFlow.OAuthConfig, DeviceFlow.DeviceCode) -> Result<Tokens.Token, string>)

  /** `~/.outlook-md/token.json`. */
  function CacheFilePath(home: string): string {
    home + "/.outlook-md" + "/token.json"
  }

  /** The result of `getAccessToken` and the files after it. */
  datatype Outcome = Outcome(result: Result<string, AccessError>, files: map<string, Cache.File>)

  /** Signing in afresh: the device flow, whose token is saved to the cache
      (a failed save only warns). */
  function DeviceFlowOutcome(cfg: Config.Config, path: string, files: map<string, Cache.File>,
                             unwritable: set<string>, p: Provider): Outcome {
    match DeviceFlow.Authenticate(DeviceFlow.NewDeviceCodeAuthenticator(cfg.clientID, cfg.tenantID), p.deviceAuth, p.poll)
    case Err(e) => Outcome(Err(AuthFailed(e)), files)
    case Ok(t) => Outcome(Ok(t.accessToken), Cache.SavedFiles(files, unwritable, path, t))
  }

  /** Using the cache file at `path`: a cached token that is valid, or
      refreshes, is used; a missing file or a failed refresh leads to the
      device flow; any other load error is fatal. */
  function CachedOutcome(cfg: Config.Config, path: string, files: map<string, Cache.File>,
                         unreadable: set<string>, unwritable: set<string>, now: Time, p: Provider): Outcome {
    match Cache.LoadResult(files, unreadable, path)
    case Err(e) =>
      if Cache.IsNotExist(e) then DeviceFlowOutcome(cfg, path, files, unwritable, p)
      else Outcome(Err(CacheLoadFailed(e)), files)
    case Ok(cached) =>
      match DeviceFlow.TokenResult(cached, now, DeviceFlow.TokenSourceConfig(cfg.clientID, cfg.tenantID), p.refresh)
      case Ok(t) =>
        Outcome(Ok(t.accessToken), if Tokens.Valid(cached, now) then files else Cache.SavedFiles(files, unwritable, path, t))
      case Err(_) => DeviceFlowOutcome(cfg, path, files, unwritable, p)
  }

  /** What `getAccessToken` gives at `now` on the files `files`. */
  function AccessTokenOutcome(env: Environment, files: map<string, Cache.File>, unreadable: set<string>,
                              unwritable: set<string>, now: Time, p: Provider): Outcome {
    if env.accessToken != "" then Outcome(Ok(env.accessToken), files)
    else
      match Config.Configured(env.sources)
      case Err(e) => Outcome(Err(ConfigFailed(e)), files)
      case Ok(cfg) =>
        match env.homeDir
        case Err(e) => Outcome(Err(HomeDirFailed(e)), files)
        case Ok(home) =>
          if !env.cacheDirOk then Outcome(Err(CacheDirFailed), files)
          else CachedOutcome(cfg, CacheFilePath(home), files, unreadable, unwritable, now, p)
  }

  /** The device flow of `getAccessToken`, then the save of its token. */
  method SignIn(cfg: Config.Config, tokenCache: Cache.TokenCache, p: Provider) returns (r: Result<string, AccessError>)
    modifies tokenCache.store
    ensures var o := DeviceFlowOutcome(cfg, tokenCache.filePath, old(tokenCache.store.files), old(tokenCache.store.unwritable), p);
      r == o.result && tokenCache.store.files == o.files
    ensures tokenCache.store.unreadable == old(tokenCache.store.unreadable)
    ensures tokenCache.store.unwritable == old(tokenCache.store.unwritable)
  {
    var authenticator := DeviceFlow.NewDeviceCodeAuthenticator(cfg.clientID, cfg.tenantID);
    var token := DeviceFlow.Authenticate(authenticator, p.deviceAuth, p.poll);
    if token.Err? {
      return Err(AuthFailed(token.error));
    }
    var _ := tokenCache.Save(token.value);
    return Ok(token.value.accessToken);
  }

  /** The cached token handed to a `TokenSource` that saves to the same
      cache. */
  method Reuse(cfg: Config.Config, tokenCache: Cache.TokenCache, cached: Tokens.Token, now: Time, p: Provider)
      returns (r: Result<Tokens.Token, DeviceFlow.RefreshError>)
    modifies tokenCache.store
    ensures r == DeviceFlow.TokenResult(cached, now, DeviceFlow.TokenSourceConfig(cfg.clientID, cfg.tenantID), p.refresh)
    ensures tokenCache.store.files == (if !Tokens.Valid(cached, now) && r.Ok?
                                       then Cache.SavedFiles(old(tokenCache.store.files), old(tokenCache.store.unwritable),
                                                             tokenCache.filePath, r.value)
                                       else old(tokenCache.store.files))
    ensures tokenCache.store.unreadable == old(tokenCache.store.unreadable)
    ensures tokenCache.store.unwritable == old(tokenCache.store.unwritable)
  {
    var source := new DeviceFlow.TokenSource(cached, cfg.clientID, cfg.tenantID, tokenCache);
    r := source.Token(now, p.refresh);
  }

  /** The cached token of `getAccessToken`, refreshed if need be, else the
      device flow. */
  method FromCache(cfg: Config.Config, tokenCache: Cache.TokenCache, now: Time, p: Provider)
      returns (r: Result<string, AccessError>)
    modifies tokenCache.store
    ensures var o := CachedOutcome(cfg, tokenCache.filePath, old(tokenCache.store.files), old(tokenCache.store.unreadable),
                                   old(tokenCache.store.unwritable), now, p);
      r == o.result && tokenCache.store.files == o.files
    ensures tokenCache.store.unreadable == old(tokenCache.store.unreadable)
    ensures tokenCache.store.unwritable == old(tokenCache.store.unwritable)
  {
    var cached := tokenCache.Load();
    if cached.Ok? {
      var refreshed := Reuse(cfg, tokenCache, cached.value, now, p);
      if refreshed.Ok? {
        return Ok(refreshed.value.accessToken);
      }
    } else if !Cache.IsNotExist(cached.error) {
      return Err(CacheLoadFailed(cached.error));
    }
    r := SignIn(cfg, tokenCache, p);
  }

  /** `getAccessToken`: the environment's token, else the cached token
      (refreshed if need be), else the device flow. */
  method GetAccessToken(env: Environment, store: Cache.FileStore, now: Time, p: Provider)
      returns (r: Result<string, AccessError>)
    modifies store
    ensures var o := AccessTokenOutcome(env, old(store.files), old(store.unreadable), old(store.unwritable), now, p);
      r == o.result && store.files == o.files
    ensures store.unreadable == old(store.unreadable) && store.unwritable == old(store.unwritable)
  {
    if env.accessToken != "" {
      return Ok(env.accessToken);
    }
    var cfg := Config.Load(env.sources);
    if cfg.Err? {
      return Err(ConfigFailed(cfg.error));
    }
    if env.homeDir.Err? {
      return Err(HomeDirFailed(env.homeDir.error));
    }
    var cacheDir := env.homeDir.value + "/.outlook-md";
    var cacheFile := cacheDir + "/token.json";
    if !env.cacheDirOk {
      return Err(CacheDirFailed);
    }
    var tokenCache := new Cache.TokenCache(cacheFile, store);
    r := FromCache(cfg.value, tokenCache, now, p);
  }

  /** The cache file a configured environment uses. */
  predicate UsesCache(env: Environment) {
    env.accessToken == "" && Config.Configured(env.sources).Ok? && env.homeDir.Ok? && env.cacheDirOk
  }

  /** The first rule: a token in the environment is used as it is, before
      the configuration is even read, and no file changes. */
  lemma EnvironmentTokenWins(env: Environment, files: map<string, Cache.File>, unreadable: set<string>,
                             unwritable: set<string>, now: Time, p: Provider)
    requires env.accessToken != ""
    ensures AccessTokenOutcome(env, files, unreadable, unwritable, now, p) == Outcome(Ok(env.accessToken), files)
  {
  }

  /** The second rule: a cached token that is still valid is used without
      any request to the identity provider and without writing the file. */
  lemma ValidCacheNeedsNoSignIn(env: Environment, files: map<string, Cache.File>, unreadable: set<string>,
                                unwritable: set<string>, now: Time, p: Provider, t: Tokens.Token)
    requires UsesCache(env)
    requires Cache.LoadResult(files, unreadable, CacheFilePath(env.homeDir.value)) == Ok(t)
    requires Tokens.Valid(t, now)
    ensures AccessTokenOutcome(env, files, unreadable, unwritable, now, p) == Outcome(Ok(t.accessToken), files)
  {
    DeviceFlow.TokenResultOutcomes(t, now, DeviceFlow.TokenSourceConfig(
      Config.Configured(env.sources).value.clientID, Config.Configured(env.sources).value.tenantID), p.refresh);
  }

  /** The third rule, and only then: the device flow runs when the cache
      file is missing or the cached token could not be refreshed; a cache
      file that exists but cannot be read or parsed is an error instead. */
  lemma DeviceFlowOnlyWhenNeeded(env: Environment, files: map<string, Cache.File>, unreadable: set<string>,
                                 unwritable: set<string>, now: Time, p: Provider)
    requires UsesCache(env)
    ensures var cfg := Config.Configured(env.sources).value;
      var path := CacheFilePath(env.homeDir.value);
      var loaded := Cache.LoadResult(files, unreadable, path);
      var o := AccessTokenOutcome(env, files, unreadable, unwritable, now, p);
      && (path !in files ==> o == DeviceFlowOutcome(cfg, path, files, unwritable, p))
      && (loaded.Err? && !Cache.IsNotExist(loaded.error) ==> o == Outcome(Err(CacheLoadFailed(loaded.error)), files))
      && (loaded.Ok? && DeviceFlow.TokenResult(loaded.value, now, DeviceFlow.TokenSourceConfig(cfg.clientID, cfg.tenantID), p.refresh).Err?
          ==> o == DeviceFlowOutcome(cfg, path, files, unwritable, p))
  {
    Cache.LoadErrors(files, unreadable, CacheFilePath(env.homeDir.value));
  }

  /** A failure never writes a file: only a token that is handed out is
      saved. */
  lemma FailureWritesNothing(env: Environment, files: map<string, Cache.File>, unreadable: set<string>,
                             unwritable: set<string>, now: Time, p: Provider)
    requires AccessTokenOutcome(env, files, unreadable, unwritable, now, p).result.Err?
    ensures AccessTokenOutcome(env, files, unreadable, unwritable, now, p).files == files
  {
    if UsesCache(env) {
      var cfg := Config.Configured(env.sources).value;
      CachedFailureWritesNothing(cfg, CacheFilePath(env.homeDir.value), files, unreadable, unwritable, now, p);
    }
  }

  /** The cache branch of `FailureWritesNothing`. */
  lemma CachedFailureWritesNothing(cfg: Config.Config, path: string, files: map<string, Cache.File>,
                                   unreadable: set<string>, unwritable: set<string>, now: Time, p: Provider)
    requires CachedOutcome(cfg, path, files, unreadable, unwritable, now, p).result.Err?
    ensures CachedOutcome(cfg, path, files, unreadable, unwritable, now, p).files == files
  {
    match Cache.LoadResult(files, unreadable, path)
    case Err(e) =>
    case Ok(cached) =>
      match DeviceFlow.TokenResult(cached, now, DeviceFlow.TokenSourceConfig(cfg.clientID, cfg.tenantID), p.refresh)
      case Ok(t) =>
      case Err(_) =>
  }

  /** Signing in once is remembered: after the device flow hands out a
      token and saves it, a later run that still finds it valid uses it
      without signing in again, whatever the identity provider would do. */
  lemma SignInIsRemembered(env: Environment, files: map<string, Cache.File>, unreadable: set<string>,
                           unwritable: set<string>, now: Time, p: Provider, later: Time, q: Provider)
    requires UsesCache(env)
    requires CacheFilePath(env.homeDir.value) !in files
    requires CacheFilePath(env.homeDir.value) !in unreadable && CacheFilePath(env.homeDir.value) !in unwritable
    requires var cfg := Config.Configured(env.sources).value;
      DeviceFlow.Authenticate(DeviceFlow.NewDeviceCodeAuthenticator(cfg.clientID, cfg.tenantID), p.deviceAuth, p.poll).Ok?
    requires var cfg := Config.Configured(env.sources).value;
      var t := DeviceFlow.Authenticate(DeviceFlow.NewDeviceCodeAuthenticator(cfg.clientID, cfg.tenantID), p.deviceAuth, p.poll).value;
      SchemaJson.Portable(t.expiry) && Tokens.Valid(t, later)
    ensures var first := AccessTokenOutcome(env, files, unreadable, unwritable, now, p);
      && first.result.Ok?
      && AccessTokenOutcome(env, first.files, unreadable, unwritable, later, q) == Outcome(first.result, first.files)
  {
    var cfg := Config.Configured(env.sources).value;
    var path := CacheFilePath(env.homeDir.value);
    var t := DeviceFlow.Authenticate(DeviceFlow.NewDeviceCodeAuthenticator(cfg.clientID, cfg.tenantID), p.deviceAuth, p.poll).value;
    DeviceFlowOnlyWhenNeeded(env, files, unreadable, unwritable, now, p);
    var first := AccessTokenOutcome(env, files, unreadable, unwritable, now, p);
    assert first == Outcome(Ok(t.accessToken), Cache.SavedFiles(files, unwritable, path, t));
    Cache.SaveThenLoad(files, unreadable, unwritable, path, t);
    ValidCacheNeedsNoSignIn(env, first.files, unreadable, unwritable, later, q, t);
  }

  // ----------------------------------------------------------- the windows

  /** `now` lies in the window: not before its start, before its end. */
  predicate Contains(w: TimeWindow, now: Time) {
    !Before(now, w.start) && Before(now, w.end)
  }

  /** Midnight starting the local day of `t` is not after `t`, and the
      next midnight is after it. */
  lemma WithinDay(t: Time)
    ensures Midnight(LocalDay(t), t.offset).nanos <= t.nanos < Midnight(LocalDay(t) + 1, t.offset).nanos
  {
    var s := t.nanos / NanosPerSecond;
    var day := LocalDay(t);
    assert day * SecondsPerDay <= s + t.offset < day * SecondsPerDay + SecondsPerDay;
    assert s * NanosPerSecond <= t.nanos < s * NanosPerSecond + NanosPerSecond;
    assert (day * SecondsPerDay - t.offset) * NanosPerSecond <= s * NanosPerSecond;
    assert (s + 1) * NanosPerSecond <= ((day + 1) * SecondsPerDay - t.offset) * NanosPerSecond;
  }

  /** Midnights `k` days apart are `k` days apart. */
  lemma MidnightsApart(day: int, k: int, offset: int)
    ensures Midnight(day + k, offset).nanos == Midnight(day, offset).nanos + k * NanosPerDay
  {
  }

  /** The day a midnight starts. */
  lemma MidnightDay(day: int, offset: int)
    ensures LocalDay(Midnight(day, offset)) == day
  {
  }

  /** Today's window, 00:00 to 24:00 in `loc`. */
  function TodayWindow(now: Time, loc: Zone): TimeWindow {
    var local := In(now, loc);
    var startOfDay := Midnight(LocalDay(local), loc.offset);
    TimeWindow(startOfDay, AddSeconds(startOfDay, 24 * 3600))
  }

  /** Tomorrow's window: the day of the instant 24 hours from now, 00:00 to
      24:00 in `loc`. */
  function TomorrowWindow(now: Time, loc: Zone): TimeWindow {
    var local := In(now, loc);
    var tomorrow := AddSeconds(local, 24 * 3600);
    var startOfTomorrow := Midnight(LocalDay(tomorrow), loc.offset);
    TimeWindow(startOfTomorrow, AddSeconds(startOfTomorrow, 24 * 3600))
  }

  /** Today's window starts at a local midnight, lasts one day and holds
      `now`; tomorrow's is the day that follows it. */
  lemma DayWindows(now: Time, loc: Zone)
    ensures var today := TodayWindow(now, loc);
      && LocalSeconds(today.start) % SecondsPerDay == 0 && today.start.offset == loc.offset
      && today.end.nanos - today.start.nanos == NanosPerDay
      && Contains(today, now)
    ensures var today, tomorrow := TodayWindow(now, loc), TomorrowWindow(now, loc);
      && tomorrow.start == today.end
      && tomorrow.end.nanos - tomorrow.start.nanos == NanosPerDay
      && LocalDay(tomorrow.start) == LocalDay(today.start) + 1
  {
    var local := In(now, loc);
    var day := LocalDay(local);
    WithinDay(local);
    MidnightsApart(day, 1, loc.offset);
    assert LocalDay(AddSeconds(local, 24 * 3600)) == day + 1;
    MidnightDay(day, loc.offset);
    MidnightDay(day + 1, loc.offset);
  }

  /** `daysUntilMonday`: how many days back this week's Monday is, with
      Sunday counted as the last day of the week. */
  method DaysUntilMonday(weekday: int) returns (d: int)
    requires 0 <= weekday < 7
    ensures -6 <= d <= 0 && (weekday + d) % 7 == 1
  {
    d := 1 - weekday;
    if d > 0 {
      d := d - 7;
    }
  }

  /** What the week window is: Monday 00:00 to the next Monday 00:00 in
      `loc`, the week that holds `now`. */
  predicate IsWeekOf(w: TimeWindow, now: Time, loc: Zone) {
    && w.start == Midnight(LocalDay(w.start), loc.offset)
    && Weekday(w.start) == 1
    && w.end == Midnight(LocalDay(w.start) + 7, loc.offset)
    && Contains(w, now)
  }

  /** The week window of `handleWeekCommand`. */
  method WeekWindow(now: Time, loc: Zone) returns (w: TimeWindow)
    ensures IsWeekOf(w, now, loc)
  {
    var local := In(now, loc);
    var weekday := Weekday(local);
    var daysUntilMonday := DaysUntilMonday(weekday);
    var monday := AddSeconds(local, daysUntilMonday * SecondsPerDay);
    var startOfWeek := Midnight(LocalDay(monday), loc.offset);
    var endOfWeek := AddSeconds(startOfWeek, 7 * SecondsPerDay);
    w := TimeWindow(startOfWeek, endOfWeek);
    var day := LocalDay(local);
    assert LocalDay(monday) == day + daysUntilMonday;
    WeekStartsMonday(day, daysUntilMonday, loc.offset);
    WithinDay(local);
    MidnightsApart(day + daysUntilMonday, -daysUntilMonday, loc.offset);
    MidnightsApart(day + daysUntilMonday, 7, loc.offset);
    MidnightDay(day + daysUntilMonday, loc.offset);
    MidnightsApart(day, 1, loc.offset);
  }

  /** Stepping back to Monday from the weekday of `day` lands on a Monday. */
  lemma WeekStartsMonday(day: int, d: int, offset: int)
    requires (WeekdayOfDay(day) + d) % 7 == 1
    ensures Weekday(Midnight(day + d, offset)) == 1
  {
    MidnightDay(day + d, offset);
    var q := (day + 4) / 7;
    assert day + 4 == 7 * q + WeekdayOfDay(day);
    assert day + d + 4 == 7 * q + (WeekdayOfDay(day) + d);
  }

  /** A week window is the only one of its kind: the conditions of
      `IsWeekOf` fix the window. */
  lemma WeekIsUnique(w1: TimeWindow, w2: TimeWindow, now: Time, loc: Zone)
    requires IsWeekOf(w1, now, loc) && IsWeekOf(w2, now, loc)
    ensures w1 == w2
  {
    var d1, d2 := LocalDay(w1.start), LocalDay(w2.start);
    if d1 < d2 {
      MidnightsApart(d1, d2 - d1, loc.offset);
      SameWeekdayWeekApart(d1, d2);
    } else if d2 < d1 {
      MidnightsApart(d2, d1 - d2, loc.offset);
      SameWeekdayWeekApart(d2, d1);
    }
  }

  /** Two different days with the same weekday are at least a week apart. */
  lemma SameWeekdayWeekApart(a: int, b: int)
    requires a < b && WeekdayOfDay(a) == WeekdayOfDay(b)
    ensures b - a >= 7
  {
    var qa, qb := (a + 4) / 7, (b + 4) / 7;
    assert a + 4 == 7 * qa + WeekdayOfDay(a);
    assert b + 4 == 7 * qb + WeekdayOfDay(b);
    assert b - a == 7 * (qb - qa);
  }

  // ------------------------------------------------------------- the zone

  /** The zone name `getActualTimezone` settles on. */
  function ActualTimezone(timezone: string, loc: Zone, abbreviation: string): string {
    if timezone != "Local" then timezone
    else if |abbreviation| > 3 then abbreviation
    else if loc.name != "Local" then loc.name
    else "UTC"
  }

  /** `getActualTimezone`: "Local" is replaced by the abbreviation of the
      local zone at the moment (`now.Zone()`, an input here) when that is
      longer than three letters, else by the zone's own name unless that
      is "Local", else by "UTC"; any other name passes through. */
  method GetActualTimezone(timezone: string, loc: Zone, abbreviation: string) returns (actual: string)
    ensures actual == ActualTimezone(timezone, loc, abbreviation)
    ensures timezone != "Local" ==> actual == timezone
    ensures timezone == "Local" && |abbreviation| > 3 ==> actual == abbreviation
    ensures timezone == "Local" && |abbreviation| <= 3 ==> actual == (if loc.name != "Local" then loc.name else "UTC")
    ensures timezone == "Local" && abbreviation != "Local" ==> actual != "Local"
  {
    actual := timezone;
    if timezone == "Local" {
      actual := abbreviation;
      if actual == "" || |actual| <= 3 {
        if loc.name != "Local" {
          actual := loc.name;
        } else {
          actual := "UTC";
        }
      }
    }
  }

  // ---------------------------------------------------------- the commands

  datatype CommandName = Today | Tomorrow | Week

  /** Why a command fails. */
  datatype CommandError =
    | UnsupportedFormat(format: string)
    | InvalidTimezone(name: string)
    | AuthenticationFailed(accessError: AccessError)
    | FetchFailed(viewError: Client.ViewError)

  /** What `fetchAndOutputEvents` gives for the token outcome `o`: an
      authentication error when there is no token; otherwise the outcome of
      the calendar view for `window` in the zone `timezone`, an output of
      version 1 with that zone name and window on success. */
  ghost predicate FetchedAs(timezone: string, window: TimeWindow, zones: Client.ZoneData, o: Outcome,
                            send: Client.Request -> Client.Response, r: Result<CLIOutput, CommandError>)
  {
    && (o.result.Err? ==> r == Err(AuthenticationFailed(o.result.error)))
    && (o.result.Ok? ==>
          var response := send(Client.CalendarViewRequest(Client.NewGraphClient(o.result.value), window.start, window.end, timezone));
          && (r.Ok? ==> r.value == CLIOutput(1, timezone, window, r.value.events)
                        && Client.ViewedAs(response, timezone, zones, Ok(r.value.events)))
          && (r.Err? ==> r.error.FetchFailed? && Client.ViewedAs(response, timezone, zones, Err(r.error.viewError))))
  }

  /** With `--tz Local`, a local zone whose abbreviation is longer than three
      letters (say "CEST") has that abbreviation sent to Graph and then
      loaded as a zone name; when the zone table does not know it, the
      command fails at the time-zone check however many events Graph
      returns, none included. */
  lemma LongAbbreviationFailsToLoad(loc: Zone, abbreviation: string, zones: Client.ZoneData, window: TimeWindow,
                                    o: Outcome, send: Client.Request -> Client.Response,
                                    r: Result<CLIOutput, CommandError>)
    requires |abbreviation| > 3 && abbreviation != "Local" && abbreviation !in zones.table
    requires o.result.Ok?
    requires var resp := send(Client.CalendarViewRequest(Client.NewGraphClient(o.result.value), window.start, window.end, abbreviation));
      resp.Reply? && resp.status == 200 && resp.value.Some?
    requires FetchedAs(ActualTimezone("Local", loc, abbreviation), window, zones, o, send, r)
    ensures r == Err(FetchFailed(Client.ParseFailed(Client.InvalidTimezone(abbreviation))))
  {
    assert ActualTimezone("Local", loc, abbreviation) == abbreviation;
    assert Client.LoadLocation(abbreviation, zones).None?;
  }

  /** `fetchAndOutputEvents` up to the output: the token, the calendar
      view for the window, and the `CLIOutput` (version 1, the zone name,
      the window and the events) that `FormatJSON` writes. */
  method FetchAndOutputEvents(timezone: string, start: Time, end: Time, zones: Client.ZoneData,
                              env: Environment, store: Cache.FileStore, now: Time, p: Provider,
                              send: Client.Request -> Client.Response)
      returns (r: Result<CLIOutput, CommandError>)
    modifies store
    ensures var o := AccessTokenOutcome(env, old(store.files), old(store.unreadable), old(store.unwritable), now, p);
      && store.files == o.files
      && FetchedAs(timezone, TimeWindow(start, end), zones, o, send, r)
    ensures store.unreadable == old(store.unreadable) && store.unwritable == old(store.unwritable)
  {
    var accessToken := GetAccessToken(env, store, now, p);
    if accessToken.Err? {
      return Err(AuthenticationFailed(accessToken.error));
    }
    var client := Client.NewGraphClient(accessToken.value);
    var events := Client.GetCalendarView(client, start, end, timezone, zones, send);
    if events.Err? {
      return Err(FetchFailed(events.error));
    }
    var cliOutput := CLIOutput(1, timezone, TimeWindow(start, end), events.value);
    return Ok(cliOutput);
  }

  /** What the window of a command is. */
  predicate WindowFor(command: CommandName, now: Time, loc: Zone, w: TimeWindow) {
    match command
    case Today => w == TodayWindow(now, loc)
    case Tomorrow => w == TomorrowWindow(now, loc)
    case Week => IsWeekOf(w, now, loc)
  }

  /** `handleTodayCommand`, `handleTomorrowCommand` and
      `handleWeekCommand`: only JSON is supported, and the zone must load,
      before anything is fetched. */
  method HandleCommand(command: CommandName, format: string, timezone: string, zones: Client.ZoneData,
                       now: Time, abbreviation: string, env: Environment, store: Cache.FileStore,
                       p: Provider, send: Client.Request -> Client.Response)
      returns (r: Result<CLIOutput, CommandError>)
    modifies store
    ensures format != "json" ==> r == Err(UnsupportedFormat(format)) && store.files == old(store.files)
    ensures format == "json" && Client.LoadLocation(timezone, zones).None? ==>
      r == Err(InvalidTimezone(timezone)) && store.files == old(store.files)
    ensures r.Ok? ==>
      && Client.LoadLocation(timezone, zones).Some?
      && r.value.version == 1
      && WindowFor(command, now, Client.LoadLocation(timezone, zones).value, r.value.window)
      && r.value.timezone == ActualTimezone(timezone, Client.LoadLocation(timezone, zones).value, abbreviation)
      && r.value.events.Elems?
    ensures format == "json" && Client.LoadLocation(timezone, zones).Some? ==>
      var loc := Client.LoadLocation(timezone, zones).value;
      var o := AccessTokenOutcome(env, old(store.files), old(store.unreadable), old(store.unwritable), now, p);
      && store.files == o.files
      && exists w :: WindowFor(command, now, loc, w)
                     && FetchedAs(ActualTimezone(timezone, loc, abbreviation), w, zones, o, send, r)
    ensures store.unreadable == old(store.unreadable) && store.unwritable == old(store.unwritable)
  {
    if format != "json" {
      return Err(UnsupportedFormat(format));
    }
    var loc := Client.LoadLocation(timezone, zones);
    if loc.None? {
      return Err(InvalidTimezone(timezone));
    }
    var actualTimezone := GetActualTimezone(timezone, loc.value, abbreviation);
    var window: TimeWindow;
    match command {
      case Today => window := TodayWindow(now, loc.value);
      case Tomorrow => window := TomorrowWindow(now, loc.value);
      case Week => window := WeekWindow(now, loc.value);
    }
    r := FetchAndOutputEvents(actualTimezone, window.start, window.end, zones, env, store, now, p, send);
    assert WindowFor(command, now, loc.value, window);
    if r.Ok? {
      var o := AccessTokenOutcome(env, old(store.files), old(store.unreadable), old(store.unwritable), now, p);
      Client.ViewOutcomes(send(Client.CalendarViewRequest(Client.NewGraphClient(o.result.value), window.start, window.end, actualTimezone)),
                          actualTimezone, zones, Ok(r.value.events));
    }
  }
}
