# cfdnsupdater, modelled in Dafny

cfdnsupdater keeps one Cloudflare DNS "A" record in line with the host's
public IPv4 address. It asks an IP discovery service for the address, then
reconciles the record: it creates the record, updates it in place, leaves it
alone, or refuses when the host has several "A" records. It exposes
`/metrics`, `/ready` and `/alive` under an optional URL prefix, and
`cfdnsupdater_update_count` counts successful writes.

This project models the parts of `cfdnsupdater.go` that are logic rather than I/O:

- `text.dfy` (module `Text`): the library behaviour the program relies on.
  This is `strings.TrimSpace` (with the whitespace set of `unicode.IsSpace`),
  `strings.HasSuffix`, and `strconv.ParseUint(s, 10, 0)` for a 64-bit `uint`.
  `ParseUint` is given a partner: the decimal numeral function `Decimal`.
- `settings.dfy` (module `Settings`): startup, meaning `main` after flag
  parsing.
  - The sleep interval: its default, its environment override and the
    warning string.
  - The wrap-around of `time.Duration(n) * time.Second` in 64 bits.
  - The validation chain, which reports the first failed check.
  - The three route paths.
  - `Start`: the decision to print the version, exit, or start the loop and
    the server.
- `resolver.dfy` (module `Resolver`): what `getIP` makes of an HTTP exchange.
  The exchange itself is an input: no response, or a status plus a body that
  may not have been readable.
- `reconciler.dfy` (module `Reconciler`): `updateHost`.
  - The zone is a sequence of records (ID, name, type, content). The counter
    is an integer. Both are fields of the class `Updater`, whose method
    `UpdateHost` changes them in place.
  - `UpdateHost` is proved equal to the function `Reconcile`. The lemmas
    about `Reconcile` state each branch's behaviour.
  - A registrar call can fail. This is modelled by a parameter that names the
    failing call, if any. `updateHost` returns at its first failing call, so
    one parameter covers every run.
  - `RunCycle` models one pass of the update loop: resolve, then reconcile.
- `wrappers.dfy`: `Option` and `Result`.

The model keeps the source's behaviour even where it looks unintended:

- When the host has two or more "A" records, `updateHost` logs the problem
  and returns `err`. At that point `err` is the listing's error, which must be
  nil. So the call reports success and changes nothing
  (`ReconcileAmbiguousReportsSuccess`). The log message treats this case as
  an error, but the model follows the code and returns nil.
- After a failed resolve, the loop still calls `updateHost` with `""`. With
  no record present, the cycle sends a create request with empty content
  (`FailedResolveRequestsEmptyCreate`). With one record holding an address,
  it sends an update request that sets the content to `""`
  (`FailedResolveRequestsEmptyUpdate`).
- The zone check is a plain string suffix test, so `notexample.com` counts as
  inside `example.com` (`SuffixCheckIgnoresLabels`).
- A sleep interval from 9223372037 up to 18446744073 seconds makes the
  duration wrap to a negative value (`SleepDurationNegativeRange`). Larger
  values wrap again; 18446744074 seconds gives about 0.29 seconds
  (`SleepDurationWrapsAgain`).
- `0` is accepted as an interval, although the warning text asks for a
  "positive integer".

## Model

| member | source | states |
|---|---|---|
| `Text.TrimSpace` | cfdnsupdater.go:117 | the result has no whitespace at either end and is a contiguous slice of the input with only whitespace cut off on each side |
| `Text.TrimSpaceOfPadded` | cfdnsupdater.go:117 | any whitespace around a core with no whitespace at its ends is removed, giving back exactly the core |
| `Text.TrimSpaceIdempotent` | cfdnsupdater.go:117 | trimming twice equals trimming once |
| `Text.IsSpace` | cfdnsupdater.go:117 | the whitespace that trimming removes: tab, newline, vertical tab, form feed, carriage return, space, U+0085, U+00A0 and the other Unicode White_Space code points |
| `Text.HasSuffix` | cfdnsupdater.go:251 | when the test holds, the host is its own leading part followed by the zone |
| `Text.HasSuffixIff` | cfdnsupdater.go:251 | the suffix test holds exactly when the host is some string followed by the zone (both directions) |
| `Text.ParseUint` | cfdnsupdater.go:217 | an accepted value comes from a non-empty all-digit string, is its decimal value and fits in 64 bits; a rejected string is empty, has a non-digit or overflows |
| `Text.ParseDecimal` | cfdnsupdater.go:217 | round trip: parsing the decimal numeral of n gives n exactly when n fits in 64 bits, and an error otherwise |
| `Text.LeadingZeroIgnored` | cfdnsupdater.go:217 | a leading zero changes neither acceptance nor the value |
| `Settings.IPServiceDefault` | cfdnsupdater.go:210 | the default of the `-ip-service` flag is the environment value when it is non-empty, otherwise the built-in default, so the default is never empty; a value given with the flag is not constrained |
| `Settings.SleepFromEnv` | cfdnsupdater.go:214-224 | the warning is either empty or exactly the raw environment value |
| `Settings.SleepFromEnvCases` | cfdnsupdater.go:214-224 | an empty value gives 300 with no warning; a parsable value replaces 300; a warning appears exactly when a non-empty value does not parse, and then the interval stays 300 |
| `Settings.SleepFromDecimal` | cfdnsupdater.go:216-223 | every 64-bit interval written in decimal sets exactly that interval with no warning |
| `Settings.SleepRejectsSignedAndTooLarge` | cfdnsupdater.go:217-220 | signed values and 2^64 keep 300 and are reported as the warning |
| `Settings.SleepSeconds` | cfdnsupdater.go:225 | the `-sleep-interval` flag wins; without it the environment-derived interval is used |
| `Settings.SleepDurationExact` | cfdnsupdater.go:270 | up to 9223372036 seconds the sleep duration is exactly seconds times 10^9 nanoseconds |
| `Settings.SleepDuration` | cfdnsupdater.go:270 | the duration in nanoseconds is a signed 64-bit value congruent to seconds times 10^9 modulo 2^64, which is Go's wrapping conversion and multiplication |
| `Settings.SleepDurationWraps` | cfdnsupdater.go:270 | 9223372037 seconds wraps to a negative duration |
| `Settings.SleepDurationNegativeRange` | cfdnsupdater.go:270 | from 9223372037 to 18446744073 seconds the duration is the product minus 2^64, which is negative |
| `Settings.SleepDurationWrapsAgain` | cfdnsupdater.go:270 | 18446744074 seconds wraps again to 290448384 ns |
| `Settings.ValidPrefix` | cfdnsupdater.go:239 | the URL prefix passes when it is empty or its first character is '/' |
| `Settings.Validate` | cfdnsupdater.go:239-262 | the settings are accepted iff the prefix is empty or starts with '/', zone, host, email and API key are non-empty, and the host ends with the zone; on acceptance the config carries the given strings |
| `Settings.ValidateReportsFirstFailure` | cfdnsupdater.go:239-262 | a reported error names a failing check and every earlier check passes; acceptance iff every check passes |
| `Settings.ValidateExamples` | cfdnsupdater.go:239-254 | host foo.example.com in zone example.com passes; foo.other.com fails the zone check; a prefix without '/' fails first |
| `Settings.SuffixCheckIgnoresLabels` | cfdnsupdater.go:251 | notexample.com passes as a host of zone example.com |
| `Settings.RoutePaths` | cfdnsupdater.go:272-274 | each route starts with the prefix and continues with "/metrics", "/ready" or "/alive" |
| `Settings.RoutesDistinct` | cfdnsupdater.go:272-274 | the three routes are pairwise distinct for every prefix |
| `Settings.RoutesAbsolute` | cfdnsupdater.go:272-274 | with a valid prefix every route begins with '/' |
| `Settings.Start` | cfdnsupdater.go:228-274 | `-version` exits first; the loop and server start iff validation passes; a failed check exits with that check's error; the started loop gets the validated config, the effective sleep duration and the prefixed routes |
| `Settings.ServeInvariants` | cfdnsupdater.go:239-274 | once started, zone, email and key are non-empty, the host is some string followed by the zone, and every route is absolute |
| `Resolver.GetIP` | cfdnsupdater.go:98-117 | success iff there was a response with status 200 whose body could be read; any other status gives that status as the error; on error the address is ""; the address is always trimmed |
| `Resolver.GetIPTrimsBody` | cfdnsupdater.go:117 | a 200 response with a padded address yields exactly the address |
| `Resolver.GetIPIdempotentTrim` | cfdnsupdater.go:117 | trimming the resolved address again changes nothing |
| `Resolver.GetIPExamples` | cfdnsupdater.go:108-117 | "  203.0.113.7\n" under 200 gives "203.0.113.7"; status 503 gives an error and "" |
| `Reconciler.Matching` | cfdnsupdater.go:134-136 | the listing holds exactly the zone's records with the host's name and type "A" |
| `Reconciler.SetContent` | cfdnsupdater.go:162-165 | the update changes the content of the records with the given ID and nothing else |
| `Reconciler.FreshId` | cfdnsupdater.go:143-147 | a created record gets an ID no existing record has |
| `Reconciler.MatchingSetContent` | cfdnsupdater.go:162-165 | an update by ID keeps the same records in the listing, with only the content changed |
| `Reconciler.Reconcile` | cfdnsupdater.go:120-182 | a returned error comes from the failing call and leaves store and counter unchanged; the counter never decreases and rises by at most one |
| `Reconciler.ReconcileEarlyFailure` | cfdnsupdater.go:121-139 | a failed client creation, zone lookup or listing returns its error and changes nothing |
| `Reconciler.ReconcileCreates` | cfdnsupdater.go:142-154 | with no matching record, success appends exactly one record (host, "A", ip, new ID), keeps all others, leaves it the only match and adds one to the counter; a failed create returns the error with nothing changed |
| `Reconciler.ReconcileAlreadyCorrect` | cfdnsupdater.go:155-159 | one matching record already holding the IP: no write, nothing changes, nil returned |
| `Reconciler.ReconcileUpdates` | cfdnsupdater.go:161-177 | one matching record with another IP: success changes only that record's content (same ID, same index, all other records untouched) and adds one to the counter; a failed update returns the error with nothing changed |
| `Reconciler.ReconcileAmbiguousReportsSuccess` | cfdnsupdater.go:178-181 | two or more matching records: nothing changes and nil is returned |
| `Reconciler.ReconcileCountsWrites` | cfdnsupdater.go:141-181 | the counter rises exactly when the zone's records change |
| `Reconciler.ReconcileKeepsSingleRecord` | cfdnsupdater.go:141-181 | from at most one matching record there is at most one afterwards, and after success exactly one, holding the IP |
| `Reconciler.ReconcileKeepsIdsUnique` | cfdnsupdater.go:143-165 | creating or updating never makes two records share an ID |
| `Reconciler.Updater.constructor` | cfdnsupdater.go:28-33 | the counter starts at zero over the given zone |
| `Reconciler.Updater.UpdateHost` | cfdnsupdater.go:120-182 | the new records, counter and returned error are those of `Reconcile` on the old state; an error leaves both fields unchanged; the counter rises by at most one |
| `Reconciler.RunCycle` | cfdnsupdater.go:184-196 | one cycle resolves the IP, then reconciles with the resolver's result even when resolving failed |
| `Reconciler.FailedResolveRequestsEmptyCreate` | cfdnsupdater.go:188-193 | after a failed resolve, with no record present, the cycle sends a create request with content ""; if the registrar accepts it, the new "A" record holds "" |
| `Reconciler.FailedResolveRequestsEmptyUpdate` | cfdnsupdater.go:188-193 | after a failed resolve, with one record holding an address, the cycle sends an update request to ""; if the registrar accepts it, that record keeps its place and ID and holds "" |

## Left out

- The HTTP request of `getIP` is an input to `GetIP` (`Fetch`). That covers building the request, the IPv4-only dialer, the User-Agent header, sending it and reading the body. The error carries the status code, not Go's status text.
- Strings are sequences of already-decoded characters. Decoding a response body that is not valid UTF-8 is not modelled.
- The Cloudflare client is replaced by the record store and a failure parameter. This covers `cloudflare.New`, `ZoneIDByName`, `ListDNSRecords`, `CreateDNSRecord` and `UpdateDNSRecord`. The model covers one zone. Record fields other than ID, name, type and content (TTL, proxying) are not modelled.
- The registrar's checks on record content are not modelled. The model's registrar accepts any content, including "" and other strings that are not IPv4 addresses. A real registrar may reject them; that rejection is one of the failures the `failure` parameter covers.
- Reconciler.FreshId: the registrar chooses the new record's ID. The model picks one particular unused ID.
- Name matching in the listing is exact string equality. Any case-insensitivity on the registrar's side is not modelled.
- The update loop's goroutine, its endless repetition and `time.Sleep` are concurrency and timing. Only one cycle (`RunCycle`) is modelled.
- Logging (`slog`, `setupLogger`) has no observable effect on the modelled state. This includes the sleep warning message and the wrong text of the API-key error message.
- The Prometheus counter is a plain integer. `promhttp` and the other exported metrics are not modelled.
- The HTTP server, its listen address, and the `isAlive` and `isReady` handlers are I/O with constant answers. Only the route paths are modelled.
- Flag parsing and `os.Getenv` are not modelled. Their resulting strings are inputs (`Flags`, the environment strings, the `-sleep-interval` value). The process exit is the `ExitFailure` outcome.
- `genversion.go` is a build-time generator that calls git. It is not part of this model.
