/**
 * Startup of the updater: the sleep interval taken from the environment, the
 * validation of the settings that stops the process before the update loop
 * starts, the paths of the three HTTP routes, and the decision made by `main`.
 * Flag and environment lookup themselves are not modelled: their resulting
 * strings are inputs.
 */
module Settings {
  import opened Wrappers
  import opened Text

  /** The IP discovery service used when none is configured. */
  const DefaultIPService: string := "https://ip.shee.sh/"

  /** Seconds between update cycles when nothing else is configured. */
  const DefaultSleepSeconds: uint64 := 300

  const NanosPerSecond: nat := 1_000_000_000

  /** `CFUpdateConfig`: what the update loop is started with. */
  datatype Config = Config(zone: string, host: string, email: string, apiKey: string, ipService: string)

  /** The settings as they stand after flag parsing (each flag defaults to its environment variable). */
  datatype Flags = Flags(urlPrefix: string, zone: string, host: string, email: string, apiKey: string, ipService: string)

  /** The validation failures, in the order `main` checks them. */
  datatype StartupError = BadUrlPrefix | MissingZone | MissingHost | HostOutsideZone | MissingEmail | MissingApiKey

  // ---------------------------------------------------------------------
  // IP service and sleep interval
  // ---------------------------------------------------------------------

  /**
   * `cmp.Or(env, defaultIPService)`: the default of the `-ip-service` flag, the
   * environment value unless it is empty. Only the default is modelled: a given
   * flag value, even an empty one, arrives unchecked as `Flags.ipService`.
   */
  function IPServiceDefault(env: string): (r: string)
    ensures r != []
    ensures env != [] ==> r == env
    ensures env == [] ==> r == DefaultIPService
  {
    if env != "" then env else DefaultIPService
  }

  /** The default of the `-sleep-interval` flag, and the raw value to warn about if any. */
  datatype SleepSetting = SleepSetting(seconds: uint64, warning: string)

  /**
   * The sleep interval from `CFDNSUPDATER_SLEEP_INTERVAL`: 300 unless the variable
   * is set to an unsigned decimal; a value that does not parse keeps 300 and is
   * kept as the warning.
   */
  function SleepFromEnv(env: string): (r: SleepSetting)
    ensures r.warning == "" || r.warning == env
  {
    if env == "" then SleepSetting(DefaultSleepSeconds, "")
    else match ParseUint(env)
      case None => SleepSetting(DefaultSleepSeconds, env)
      case Some(n) => SleepSetting(n, "")
  }

  /** The three outcomes of SleepFromEnv, each with the condition that selects it. */
  lemma SleepFromEnvCases(env: string)
    ensures SleepFromEnv(env).warning != "" <==> env != "" && ParseUint(env).None?
    ensures SleepFromEnv(env).warning != "" ==> SleepFromEnv(env) == SleepSetting(300, env)
    ensures env == "" ==> SleepFromEnv(env) == SleepSetting(300, "")
    ensures ParseUint(env).Some? ==> SleepFromEnv(env) == SleepSetting(ParseUint(env).value, "")
  {
  }

  /** Writing any 64-bit number of seconds in decimal into the environment sets exactly that interval. */
  lemma SleepFromDecimal(n: uint64)
    ensures SleepFromEnv(Decimal(n)) == SleepSetting(n, "")
  {
    ParseDecimal(n);
  }

  /** Values `strconv.ParseUint` refuses keep the default and are reported. */
  lemma SleepRejectsSignedAndTooLarge()
    ensures SleepFromEnv("+5") == SleepSetting(300, "+5")
    ensures SleepFromEnv("-5") == SleepSetting(300, "-5")
    ensures SleepFromEnv(Decimal(MaxUint64 + 1)) == SleepSetting(300, Decimal(MaxUint64 + 1))
  {
    assert !IsDigit("+5"[0]) && !IsDigit("-5"[0]);
    ParseDecimal(MaxUint64 + 1);
  }

  /** The `-sleep-interval` flag, when given, wins over the environment. */
  function SleepSeconds(flag: Option<uint64>, env: string): (r: uint64)
    ensures flag.Some? ==> r == flag.value
    ensures flag.None? ==> r == SleepFromEnv(env).seconds
  {
    flag.GetOr(SleepFromEnv(env).seconds)
  }

  /** A mathematical integer read as a two's-complement 64-bit signed integer. */
  function ToInt64(x: int): (r: int)
    ensures -0x8000_0000_0000_0000 <= r < 0x8000_0000_0000_0000
    ensures (r - x) % 0x1_0000_0000_0000_0000 == 0
  {
    var m := x % 0x1_0000_0000_0000_0000;
    if m < 0x8000_0000_0000_0000 then m else m - 0x1_0000_0000_0000_0000
  }

  /**
   * `time.Duration(seconds) * time.Second` in nanoseconds: both the conversion
   * from `uint` and the multiplication wrap around in 64 bits.
   */
  function SleepDuration(seconds: uint64): (d: int)
    ensures -0x8000_0000_0000_0000 <= d < 0x8000_0000_0000_0000
    ensures (d - seconds * NanosPerSecond) % 0x1_0000_0000_0000_0000 == 0
  {
    ToInt64(seconds * NanosPerSecond)
  }

  /** Up to 9223372036 seconds the duration is exact. */
  lemma SleepDurationExact(seconds: uint64)
    requires seconds <= 9_223_372_036
    ensures SleepDuration(seconds) == seconds * NanosPerSecond
  {
  }

  /** One second more and the duration wraps to a negative value, on which `time.Sleep` returns at once. */
  lemma SleepDurationWraps()
    ensures SleepDuration(9_223_372_037) < 0
  {
  }

  /**
   * The negative range: from 9223372037 up to 18446744073 seconds the product
   * lies between 2^63 and 2^64, so the duration is the product minus 2^64.
   */
  lemma SleepDurationNegativeRange(seconds: uint64)
    requires 9_223_372_037 <= seconds <= 18_446_744_073
    ensures SleepDuration(seconds) == seconds * NanosPerSecond - 0x1_0000_0000_0000_0000
    ensures SleepDuration(seconds) < 0
  {
  }

  /** Past the negative range the product wraps again, to a short positive duration. */
  lemma SleepDurationWrapsAgain()
    ensures SleepDuration(18_446_744_074) == 290_448_384
  {
  }

  // ---------------------------------------------------------------------
  // Validation
  // ---------------------------------------------------------------------

  /** The URL prefix check: the prefix is empty or begins with '/'. */
  predicate ValidPrefix(prefix: string) {
    prefix == [] || prefix[0] == '/'
  }

  /** Whether `f` passes the single check that fails with `e`. */
  predicate Passes(f: Flags, e: StartupError) {
    match e
    case BadUrlPrefix => ValidPrefix(f.urlPrefix)
    case MissingZone => f.zone != ""
    case MissingHost => f.host != ""
    case HostOutsideZone => HasSuffix(f.host, f.zone)
    case MissingEmail => f.email != ""
    case MissingApiKey => f.apiKey != ""
  }

  /** Position of each check in `main`. */
  function Rank(e: StartupError): nat {
    match e
    case BadUrlPrefix => 0
    case MissingZone => 1
    case MissingHost => 2
    case HostOutsideZone => 3
    case MissingEmail => 4
    case MissingApiKey => 5
  }

  /** The conditions under which the settings are accepted. */
  predicate Acceptable(f: Flags) {
    && ValidPrefix(f.urlPrefix)
    && f.zone != "" && f.host != "" && f.email != "" && f.apiKey != ""
    && HasSuffix(f.host, f.zone)
  }

  function ConfigOf(f: Flags): Config {
    Config(f.zone, f.host, f.email, f.apiKey, f.ipService)
  }

  /** The chain of checks in `main`; the first failing one ends startup. */
  function Validate(f: Flags): (r: Result<Config, StartupError>)
    ensures r.Ok? <==> Acceptable(f)
    ensures r.Ok? ==> r.value == ConfigOf(f)
  {
    if !ValidPrefix(f.urlPrefix) then Err(BadUrlPrefix)
    else if f.zone == "" then Err(MissingZone)
    else if f.host == "" then Err(MissingHost)
    else if !HasSuffix(f.host, f.zone) then Err(HostOutsideZone)
    else if f.email == "" then Err(MissingEmail)
    else if f.apiKey == "" then Err(MissingApiKey)
    else Ok(ConfigOf(f))
  }

  /** A reported error names a check that fails, and every check before it passes. */
  lemma ValidateReportsFirstFailure(f: Flags)
    ensures Validate(f).Err? ==> !Passes(f, Validate(f).error)
    ensures Validate(f).Err? ==> forall e :: Rank(e) < Rank(Validate(f).error) ==> Passes(f, e)
    ensures Validate(f).Ok? <==> forall e :: Passes(f, e)
  {
    if !Acceptable(f) {
      assert !Passes(f, BadUrlPrefix) || !Passes(f, MissingZone) || !Passes(f, MissingHost)
        || !Passes(f, HostOutsideZone) || !Passes(f, MissingEmail) || !Passes(f, MissingApiKey);
    }
  }

  /** A host inside the zone passes, one outside it fails at the suffix check. */
  lemma ValidateExamples()
    ensures Validate(Flags("", "example.com", "foo.example.com", "me@example.com", "key", DefaultIPService)).Ok?
    ensures Validate(Flags("", "example.com", "foo.other.com", "me@example.com", "key", DefaultIPService)) == Err(HostOutsideZone)
    ensures Validate(Flags("metrics", "example.com", "foo.example.com", "me@example.com", "key", DefaultIPService)) == Err(BadUrlPrefix)
  {
    var h := "foo.example.com";
    assert h[|h| - 11..] == "example.com";
    var g := "foo.other.com";
    assert g[|g| - 11..][0] != "example.com"[0];
  }

  /** The suffix check compares characters, not DNS labels: a host that merely ends in the zone's text passes. */
  lemma SuffixCheckIgnoresLabels()
    ensures Validate(Flags("", "example.com", "notexample.com", "me@example.com", "key", DefaultIPService)).Ok?
  {
    var h := "notexample.com";
    assert h[|h| - 11..] == "example.com";
  }

  // ---------------------------------------------------------------------
  // Routes
  // ---------------------------------------------------------------------

  datatype Routes = Routes(metrics: string, ready: string, alive: string)

  /** The paths the HTTP server registers: each is the prefix followed by the route's own name. */
  function RoutePaths(prefix: string): (r: Routes)
    ensures |prefix| <= |r.metrics| && r.metrics[..|prefix|] == prefix && r.metrics[|prefix|..] == "/metrics"
    ensures |prefix| <= |r.ready| && r.ready[..|prefix|] == prefix && r.ready[|prefix|..] == "/ready"
    ensures |prefix| <= |r.alive| && r.alive[..|prefix|] == prefix && r.alive[|prefix|..] == "/alive"
  {
    Routes(prefix + "/metrics", prefix + "/ready", prefix + "/alive")
  }

  /** The three routes never collide, whatever the prefix. */
  lemma RoutesDistinct(prefix: string)
    ensures RoutePaths(prefix).metrics != RoutePaths(prefix).ready
    ensures RoutePaths(prefix).metrics != RoutePaths(prefix).alive
    ensures RoutePaths(prefix).ready != RoutePaths(prefix).alive
  {
    var r := RoutePaths(prefix);
    var n := |prefix|;
    assert r.ready[n + 1] == 'r' && r.alive[n + 1] == 'a';
  }

  /** With a prefix that passes validation every route is an absolute path. */
  lemma RoutesAbsolute(prefix: string)
    requires ValidPrefix(prefix)
    ensures RoutePaths(prefix).metrics[0] == '/'
    ensures RoutePaths(prefix).ready[0] == '/'
    ensures RoutePaths(prefix).alive[0] == '/'
  {
  }

  // ---------------------------------------------------------------------
  // main
  // ---------------------------------------------------------------------

  /** What `main` goes on to do. */
  datatype Startup =
    | PrintVersion
    | ExitFailure(error: StartupError)
    | Serve(config: Config, sleep: int, routes: Routes)

  /**
   * `main` after flag parsing: `-version` exits first; then the validation
   * checks; only if all pass are the update loop and the HTTP server started.
   */
  function Start(showVersion: bool, f: Flags, sleepFlag: Option<uint64>, sleepEnv: string): (r: Startup)
    ensures r.PrintVersion? <==> showVersion
    ensures r.Serve? <==> !showVersion && Acceptable(f)
    ensures r.ExitFailure? ==> Validate(f) == Err(r.error)
    ensures r.Serve? ==> r.config == ConfigOf(f) && r.routes == RoutePaths(f.urlPrefix)
    ensures r.Serve? ==> r.sleep == SleepDuration(SleepSeconds(sleepFlag, sleepEnv))
  {
    if showVersion then PrintVersion
    else match Validate(f)
      case Err(e) => ExitFailure(e)
      case Ok(config) => Serve(config, SleepDuration(SleepSeconds(sleepFlag, sleepEnv)), RoutePaths(f.urlPrefix))
  }

  /** Once started, the configured host lies in the zone and every route is absolute. */
  lemma ServeInvariants(showVersion: bool, f: Flags, sleepFlag: Option<uint64>, sleepEnv: string)
    requires Start(showVersion, f, sleepFlag, sleepEnv).Serve?
    ensures var s := Start(showVersion, f, sleepFlag, sleepEnv);
      && s.config.zone != "" && s.config.email != "" && s.config.apiKey != ""
      && (exists p :: s.config.host == p + s.config.zone)
      && s.routes.metrics[0] == '/' && s.routes.ready[0] == '/' && s.routes.alive[0] == '/'
  {
    HasSuffixIff(f.host, f.zone);
    RoutesAbsolute(f.urlPrefix);
  }
}
