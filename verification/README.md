# Verified model of the certificate exchange server

The server trades an OIDC ID token for a short-lived Talos client certificate. Its decisions are made by
small components that keep a cheap state driven by a clock: pruned timestamps, counters that start over,
a cached key set, a stamp on two files. This project models those components in Dafny and proves that the
cheap state agrees with a simple reference over the whole history, and what follows from that. To
verify it, run `dafny verify dfyconfig.toml`.

Time is an unbounded integer (nanoseconds), clock readings are arguments, and sections under one lock are
one step. Components that the program updates in place are classes; their methods are proved against
functions on values, and the theorems are about runs of those functions. Where goroutines matter, a
second model interleaves their sections step by step.

| modules | what they cover |
|---|---|
| `SlidingWindow`, `RateLimiter`, `RetryAfter` | the per-IP limiter: reference, refinement, bounds, Retry-After |
| `LimiterInterleaving`, `LimiterHypotheses` | the limiter at its lock boundaries, and why both conditions are needed |
| `Fingerprint`, `CertReloading`, `CertReloader` | the TLS hot reloader while files are rewritten underneath |
| `KeySetCaching`, `KeySetCache` | the JWKS cache and its lazy creation |
| `LoginGuarding`, `LoginLimits`, `LoginGuard` | brute-force protection of the admin login |
| `Sessions`, `SessionStore` | dashboard sessions |
| `CounterWindows`, `AnomalyDetection`, `AnomalyGuarantees`, `ReplayGuarantees`, `AnomalyDetector` | the anomaly detector's restarting counters |
| `CertWatching` | the `login --watch` loop |
| `DevicePolling` | the device flow (RFC 8628) |
| `ExchangePipeline`, `ExchangeHandler`, `RoleMapping`, `IssuedCertificates` | exchange requests from token to certificate, and roles |
| `Tracking`, `AdminTracker` | the admin tracker and the audit logger that feeds it |
| `ClientAddress`, `CsvSettings`, `Text` | client addresses behind proxies, the allowlist, list settings |
| `KeyBytes`, `TokenClaims`, `TokenChecking`, `TokenValidation` | ID token validation |
| `GoSlice`, `Maps`, `Wrappers` | slices compacted in place, append, maps swept in a loop; optional values and time |

## What the proofs turned up

- The limiter's bound holds at its real lock boundaries only under two conditions: decisions follow the
  clock, and no cleanup deletes a client a call has looked up. `LimiterHypotheses` has, for every limit and
  window, a run that breaks the bound by breaking either condition alone.
- Retry-After names the window in whole seconds, rounded down. It can be relied on exactly when the window
  has no fraction of a second.
- The login guard lets through 4 + k wrong tokens per 15 minutes when k requests of an IP are in the handler
  at once. The configured maximum of 5 is what it enforces exactly when they are handled one at a time.
- A lockout is left alone by whatever is submitted during it, and ends within the displayed minutes, exactly
  when no request of the IP was past the check as it began. A wrong token of such a request moves the
  lockout's start to its own time.
- The anomaly detector's first failure never alerts, so a maximum below 2 acts as 2. Its fixed windows
  catch every burst of n failures exactly when n >= 2T - 2, one fewer than the 2T - 1 one would expect from
  two adjacent windows, and the same holds for the uses of a token within a day. Its cleanup is invisible for
  failures but forgets tokens after a day.
- The reloader brings a rotation to every handshake exactly when the stamps the files settle on were not on
  them before another pair could be read. Stamps that never return are enough. That a stamp always stands for
  the same contents is not: a rollback to the old files, times included, during the read is missed by every
  later check. Neither would do if the fingerprint were taken after the pair is read.
- A rotated key set can take the cache lifetime plus one fetch latency to arrive, as the age of a key set
  is counted from the end of the fetch.
- With the default certificate lifetime of five minutes the watch loop never waits: the renewal margin is
  five minutes too, so it renews every ten seconds or so.
- Matching a first role rule replaces the default roles, it does not add to them. More claims can
  therefore mean fewer roles, but never for a user who already matched a rule.
- A token is still accepted at its exp second, where section 4.1.4 of RFC 7519 asks for refusal on or after
  that time, and up to 61 seconds before nbf.
- The server passes no algorithm allowlist, so the default one holds, which has no HMAC algorithm: a client
  secret is never used to check a token (`pkg/server/server.go:760`).

## Model

| member | source | states |
|---|---|---|
| `GoSlice.CompactInPlace` | `pkg/ratelimit/ratelimit.go:99-106` | compacting a slice in its own array leaves the elements that pass the test, in order, and nothing beyond the old length changes |
| `GoSlice.Append` | `pkg/ratelimit/ratelimit.go:114` | the slice plus one element, in place if there is room and in a fresh array otherwise |
| `SlidingWindow.LimiterRefinesReference` | `pkg/ratelimit/ratelimit.go:79-116` | over every run of requests and cleanups with nondecreasing time, the pruning limiter gives the answers of a limiter that never forgets a timestamp, and accepts the same requests |
| `SlidingWindow.CleanupIsInvisible` | `pkg/ratelimit/ratelimit.go:185-211` | background cleanup, deletion of clients included, changes no answer of any run |
| `SlidingWindow.WindowBound` | `pkg/ratelimit/ratelimit.go:36-46` | for every positive setting N and every window setting, W being it or a minute if it is not positive: in every run, no window (t - W, t] holds more than N accepted requests of an IP |
| `SlidingWindow.AnswerExactly` | `pkg/ratelimit/ratelimit.go:73-116` | in every run of every setting, a request is let in if and only if the setting is not positive or fewer than N requests of the IP were accepted in the window that ends with it |
| `SlidingWindow.DisabledLetsAllIn` | `pkg/ratelimit/ratelimit.go:73-82` | with a setting that is not positive every answer of every run is yes |
| `SlidingWindow.CleanupExactly` | `pkg/ratelimit/ratelimit.go:190-210` | a cleanup forgets exactly the timestamps that have left the window, and keeps no client without any |
| `SlidingWindow.IntervalBound` | `pkg/ratelimit/ratelimit.go:36-46` | with the same settings, any interval (a, a + L] of any run holds at most N * ceil(L / W) accepted requests of an IP |
| `SlidingWindow.CeilDivIsCeiling` | `pkg/ratelimit/ratelimit.go:99-115` | the ceiling used by that bound is the least whole number of windows that covers the interval |
| `SlidingWindow.AcceptKeepsBounded` | `pkg/ratelimit/ratelimit.go:108-115` | accepting what the reference accepts keeps every window of every IP within the limit |
| `RetryAfter.RetryAfterExact` | `pkg/ratelimit/ratelimit.go:170-176` | waiting out Retry-After, or longer, gets every refused client in, whatever the others do, if and only if the window is a whole number of seconds |
| `RetryAfter.RetryAnswer` | `pkg/ratelimit/ratelimit.go:163-176` | the retry of a client that kept quiet, at the named time or later, is answered by what had been accepted when it was refused |
| `RetryAfter.BurstRefused` | `pkg/ratelimit/ratelimit.go:99-115` | for every window with a fraction of a second, a run in which the client waits Retry-After and is refused again |
| `RateLimiter.Limiter.constructor` | `pkg/ratelimit/ratelimit.go:36-46` | an empty limiter with the given settings, a window that is not positive becoming a minute |
| `RateLimiter.Limiter.Lookup` | `pkg/ratelimit/ratelimit.go:88-94` | under the limiter's lock: the client of the IP, created empty if missing, and no other client touched |
| `RateLimiter.Limiter.Decide` | `pkg/ratelimit/ratelimit.go:96-115` | under the client's lock, in its array: prunes, refuses or records as the specification does, and leaves every other client as it was |
| `RateLimiter.Limiter.Allow` | `pkg/ratelimit/ratelimit.go:79-116` | a whole call has the effect and the answer of the specification, whose answers AnswerExactly and DisabledLetsAllIn pin from the settings |
| `RateLimiter.Limiter.Cleanup` | `pkg/ratelimit/ratelimit.go:185-211` | the loop over the clients ends with exactly the pruned, non-empty ones, whatever the order |
| `RateLimiter.Limiter.Sweep` | `pkg/ratelimit/ratelimit.go:195-210` | one client of that loop: pruned, and deleted if that leaves it empty |
| `LimiterInterleaving.InterleavedBound` | `pkg/ratelimit/ratelimit.go:85-115` | with any number of calls and cleanups interleaved at the lock boundaries, no window holds more than N accepted requests, provided decisions follow the clock and no held client is deleted |
| `LimiterInterleaving.InterleavedRefinesReference` | `pkg/ratelimit/ratelimit.go:85-115` | under the same two conditions the answers are those of the reference given the requests in the order of their decisions |
| `LimiterInterleaving.StepKeepsInv` | `pkg/ratelimit/ratelimit.go:190-210` | every step keeps: calls in flight hold the mapped client, clients are not shared, stored and remembered timestamps agree past the last cutoff used |
| `LimiterInterleaving.DecideIsReference` | `pkg/ratelimit/ratelimit.go:96-115` | a decision in clock order answers as the reference over the whole history |
| `LimiterHypotheses.ClockOrderIsNeeded` | `pkg/ratelimit/ratelimit.go:85-102` | for every N and W a run that deletes nothing and accepts N + 1 requests in one window because one decision used an old clock reading |
| `LimiterHypotheses.UnheldDeletionIsNeeded` | `pkg/ratelimit/ratelimit.go:88-94` | for every N and W a run in clock order that accepts N + 1 requests because a cleanup deleted a client between lookup and decision |
| `Fingerprint.RenderInjective` | `pkg/server/certreload.go:73-86` | equal fingerprint strings mean equal sizes and modification times of both files |
| `CertReloading.RotationArrivesExactly` | `pkg/server/certreload.go:94-140` | once the files settle on a pair that loads, every handshake of every run an interval later gets that pair, if and only if the stamps settled on were never seen before another pair could be read |
| `CertReloading.NeverReturningIsEnough` | `pkg/server/certreload.go:73-86` | stamps that never return meet that condition |
| `CertReloading.StraddleIsNeverRepaired` | `pkg/server/certreload.go:57-69` | for every way to break that condition, a run that serves another pair whatever checks follow |
| `CertReloading.HandshakeServesSettledPair` | `pkg/server/certreload.go:94-104` | under the condition, a handshake an interval later that does not check serves the settled pair |
| `CertReloading.RefreshServesSettledPair` | `pkg/server/certreload.go:108-140` | ... and so does one that does check, whatever checks went before it |
| `CertReloading.CheckAfterSettling` | `pkg/server/certreload.go:117-137` | under the condition, the first check that starts after the files settled leaves the settled pair in place |
| `CertReloading.EqualStampServesCurrent` | `pkg/server/certreload.go:119-125` | a stat that finds the stored stamp finds the contents being served, given that stamps do not return |
| `CertReloading.ServesOnlyLoadedPairs` | `pkg/server/certreload.go:94-140` | whatever happens to the files, what is served was read from them and loaded as a pair |
| `CertReloading.ChecksAreApart` | `pkg/server/certreload.go:108-117` | however many handshakes race, two checks of the files are at least an interval apart |
| `CertReloading.RollbackIsMissed` | `pkg/server/certreload.go:57-69` | stamps that merely name contents are not enough: a rewrite and rollback around the read leaves another pair served through any later checks |
| `CertReloading.StampAfterLoadGoesStale` | `pkg/server/certreload.go:57-69` | taking the stamp after the read would lose a plain rotation through any later checks, stamps never returning |
| `CertReloader.Reloader.constructor` | `pkg/server/certreload.go:42-54` | the loaded pair and stamp, with the time read after loading |
| `CertReloader.Reloader.Refresh` | `pkg/server/certreload.go:108-140` | the three fields after a check, for every outcome of the stats and the load; it returns the pair it leaves |
| `CertReloader.Reloader.GetCertificate` | `pkg/server/certreload.go:94-104` | within the interval nothing changes; otherwise a refresh; never an error |
| `KeySetCaching.RotationArrives` | `pkg/oidc/jwks_cache.go:30-61` | a key rotation reaches every reader within the lifetime plus one fetch latency, on the fast path or under the lock |
| `KeySetCaching.LatencyCounts` | `pkg/oidc/jwks_cache.go:58-60` | for every lifetime and latency a run in which the old keys are served until that much later |
| `KeySetCaching.FetchesAreApart` | `pkg/oidc/jwks_cache.go:42-60` | however many readers miss at once, recorded fetches are at least the lifetime apart |
| `KeySetCaching.StaleOnlyOnFailure` | `pkg/oidc/jwks_cache.go:45-61` | a key set already out of date at the check is handed out only if this very call's fetch failed; an error only if nothing was ever loaded |
| `KeySetCaching.OnceLoadedAlwaysAnswers` | `pkg/oidc/jwks_cache.go:30-61` | once any reader was given keys, no later reader gets an error, whatever fails |
| `KeySetCache.Cache.constructor` | `pkg/oidc/jwks_cache.go:19-27` | an empty cache; a lifetime that is not positive becomes 300 seconds |
| `KeySetCache.Cache.Get` | `pkg/oidc/jwks_cache.go:30-61` | the fields and the result after a call, for every outcome of the two checks and the fetch |
| `KeySetCache.Issuer.CacheForIssuer` | `pkg/server/server.go:714-730` | discovery repeats until it first succeeds, and the cache made then is kept for good |
| `LoginGuarding.WrongTokensBound` | `pkg/server/admin_dashboard.go:188-214` | with at most k requests of an IP handled at once, any closed 15 minutes since its last success hold at most 4 + k wrong tokens, from a counter and two times |
| `LoginGuarding.FailedCounts` | `pkg/server/admin_dashboard.go:200-213` | the counter is the length of the latest run of failures without a gap longer than the window |
| `LoginLimits.MaximumHoldsOneAtATime` | `pkg/server/admin_dashboard.go:309-336` | the configured five is enforced over all runs if and only if requests of an IP are handled one at a time |
| `LoginLimits.LockoutIsKeptExactly` | `pkg/server/admin_dashboard.go:310-336` | whatever is submitted until a lockout ends leaves its record alone, if and only if no request of the IP was already past the check |
| `LoginLimits.InFlightExtends` | `pkg/server/admin_dashboard.go:200-213` | a request past the check moves the start of the lockout to the moment it records its wrong token |
| `LoginLimits.LockoutsOfRuns` | `pkg/server/admin_dashboard.go:188-214` | every lockout of every run is one these results speak of |
| `LoginLimits.DisplayedWaitEndsLockoutExactly` | `pkg/server/admin_dashboard.go:310-325` | after the minutes displayed, whatever is submitted meanwhile, the IP is let in or in a lockout begun after the old one ended, if and only if none of its requests was past the check (or even a lockout begun at the end of the old one is over) |
| `LoginLimits.DisplayedWaitIsNotMuchTooLong` | `pkg/server/admin_dashboard.go:224-238` | a minute before that it is still locked out |
| `LoginGuard.LoginAttempt.Fail` | `pkg/server/admin_dashboard.go:200-213` | the four fields after one more failure |
| `LoginGuard.BruteForceProtector.IsLockedOut` | `pkg/server/admin_dashboard.go:166-185` | locked out means a record that says so, no more than 15 minutes old |
| `LoginGuard.BruteForceProtector.RecordFailed` | `pkg/server/admin_dashboard.go:188-214` | the record of the IP counts one more failure, every other record is as it was |
| `LoginGuard.BruteForceProtector.RecordSuccess` | `pkg/server/admin_dashboard.go:217-221` | the record of the IP goes, every other stays |
| `LoginGuard.BruteForceProtector.RemainingLockout` | `pkg/server/admin_dashboard.go:224-238` | what is left of the lockout, never negative |
| `LoginGuard.BruteForceProtector.Login` | `pkg/server/admin_dashboard.go:309-353` | the decision order: a locked-out IP is refused before its token is looked at; only a compared token is recorded |
| `Sessions.SweepingIsInvisible` | `pkg/server/admin_dashboard.go:70-118` | over every run with fresh tokens, a session is accepted exactly while issued at most 24 hours ago and never logged out; sweeping removes nothing a later check would accept |
| `Sessions.CreateExactly` | `pkg/server/admin_dashboard.go:70-93` | creating a session forgets exactly the sessions older than 24 hours |
| `SessionStore.SessionStore.Create` | `pkg/server/admin_dashboard.go:70-93` | the sweep loop leaves exactly the unexpired sessions, and the new one is added |
| `SessionStore.SessionStore.Validate` | `pkg/server/admin_dashboard.go:96-111` | a session is valid if stored and at most 24 hours old |
| `SessionStore.SessionStore.Delete` | `pkg/server/admin_dashboard.go:114-118` | that session goes, every other stays |
| `AnomalyGuarantees.CatchesExactly` | `pkg/anomaly/detector.go:68-84` | every burst of n failures within one window alerts, in every run, if and only if n >= 2T - 2, T being the configured maximum or 2 |
| `AnomalyGuarantees.EnoughFailuresAlert` | `pkg/anomaly/detector.go:68-84` | in any run, 2T - 2 failures of an IP within one window include one that alerts |
| `AnomalyGuarantees.AlertsAreDeserved` | `pkg/anomaly/detector.go:79-82` | every alert comes with T failures in the window that ends with it |
| `AnomalyGuarantees.StraddleUnnoticed` | `pkg/anomaly/detector.go:68-84` | for every configuration a run in which 2T - 3 failures within one clock tick of each other raise no alert |
| `ReplayGuarantees.CatchesReplaysExactly` | `pkg/anomaly/detector.go:87-107` | every burst of n uses of a token within a day alerts, in every run, if and only if n >= 2T - 2, T being the configured maximum or 2 |
| `ReplayGuarantees.EnoughUsesAlert` | `pkg/anomaly/detector.go:87-107` | in any run, 2T - 2 uses of a token within a day include one that alerts |
| `ReplayGuarantees.ReplaysUnnoticed` | `pkg/anomaly/detector.go:120-126` | for every configuration a run in which a cleanup lets 2T - 3 uses within one clock tick of each other go without an alert |
| `ReplayGuarantees.CleanupOnlyForgets` | `pkg/anomaly/detector.go:87-126` | in any run, against the same run without cleanups, where exactly the uses from the T-th on alert: cleanups add no alert and take one away only when the counter left started more than a day after the first use |
| `AnomalyGuarantees.CleanupIsInvisible` | `pkg/anomaly/detector.go:110-119` | cleanups change no failure alert of any run |
| `ReplayGuarantees.CleanupForgetsTokens` | `pkg/anomaly/detector.go:120-126` | of the replay alerts that would come right after it, a cleanup takes away exactly those of tokens first seen more than a day ago |
| `CounterWindows.QuietEvents` | `pkg/anomaly/detector.go:68-84` | events of one restarting counter within a window and without an alert are at most 2T - 3 |
| `AnomalyDetection.StepKeepsInv` | `pkg/anomaly/detector.go:68-127` | every step keeps: each counter equals the latest group of its key's history, and a dropped one is out of date |
| `AnomalyDetection.CleanupExactly` | `pkg/anomaly/detector.go:110-127` | a cleanup drops exactly the failure counters whose window has ended and the tokens first seen more than 24 hours ago |
| `AnomalyDetector.Detector.RecordFailure` | `pkg/anomaly/detector.go:68-84` | the counters after a failure and whether it alerts; other keys as they were |
| `AnomalyDetector.Detector.RecordTokenUse` | `pkg/anomaly/detector.go:87-107` | the counters after a use and whether it alerts; nothing when replay detection is off |
| `AnomalyDetector.Detector.Cleanup` | `pkg/anomaly/detector.go:110-127` | the two loops leave exactly the counters that are not out of date |
| `CertWatching.NeverLapsesExactly` | `cmd/login.go:113-230` | for any start, no renewal runs past the expiry of the certificate stored before it if and only if retries * (effort + 60s + slack) + effort + slack fits into both 5 minutes and life - 10s - effort |
| `CertWatching.TurnKeepsSchedule` | `cmd/login.go:113-230` | every turn keeps the next check within the schedule that leaves time for the remaining attempts |
| `CertWatching.WorstCase` | `cmd/login.go:164-190` | when that time is not there, a run within the bounds in which a certificate lapses |
| `CertWatching.WaitFor` | `cmd/login.go:130-141` | a wait is between 0 and 60 seconds, never passes five minutes before expiry, and ends exactly there when that is less than a minute off |
| `CertWatching.RunLogin` | `cmd/login.go:113-232` | the loop stores, sleeps and stops as the turn-by-turn specification; and, spelled out, what it does without --watch and how it can end with it |
| `CertWatching.OneTurnWithoutWatch` | `cmd/login.go:118-232` | without --watch one turn is all: no sleep, success exactly if the stored certificate has five minutes left or is renewed, and what is stored changes exactly in the second case |
| `CertWatching.WatchEndsOnFatal` | `cmd/login.go:118-232` | with --watch the loop ends only on a fatal attempt to replace a certificate with less than five minutes left, and badly; every turn before ends in a sleep |
| `CertWatching.FatalEnds` | `cmd/login.go:152-162` | such an attempt ends the loop at once and leaves the certificate, with --watch too |
| `CertWatching.ShortLivedAlwaysRenews` | `pkg/config/config.go:287-290` | certificates that live at most 5 minutes and 10 seconds, the default lifetime among them, are renewed on every turn |
| `DevicePolling.PollCount` | `pkg/oidc/provider.go:294-321` | with the defaults filled in, at most floor(ExpiresIn / Interval) + 1 polls, whatever the provider gives and answers |
| `DevicePolling.PollCountIsReached` | `pkg/oidc/provider.go:317-321` | exactly that many when the user never answers and only the waiting takes time |
| `DevicePolling.PollsKeepTheirDistance` | `pkg/oidc/provider.go:351-363` | polls start by the deadline and are at least Interval + 5s * (slow_downs so far) apart |
| `DevicePolling.PollsComeOnTime` | `pkg/oidc/provider.go:318-364` | when nothing but the waiting takes time, the exact times of all polls, and expiry exactly when the next would be past the deadline |
| `DevicePolling.ApprovalIsSeen` | `pkg/oidc/provider.go:318-345` | an approval whose poll comes by the deadline is granted, at that poll |
| `DevicePolling.SilentProvider` | `pkg/oidc/provider.go:294-300` | with nothing given and no answer, a poll every five seconds for ten minutes: 121 polls |
| `DevicePolling.SlowDownIsQuadratic` | `pkg/oidc/provider.go:294-363` | with the defaults filled in, k polls that get only slow_down fit only if (k - 1) * Interval + 5 * (k - 1) * k / 2 <= ExpiresIn |
| `DevicePolling.HowItEnds` | `pkg/oidc/provider.go:318-365` | a token only from the last reply; failure, cancellation and expiry each exactly after replies that all said to go on |
| `DevicePolling.PollDeviceToken` | `pkg/oidc/provider.go:310-366` | the loop makes the polls and returns the outcome of the specification, for any interval |
| `DevicePolling.TakeTurn` | `pkg/oidc/provider.go:322-364` | one turn: how it ends the loop, or the next interval and when the next turn comes |
| `ExchangePipeline.AcceptedTokensAreConserved` | `pkg/server/server.go:586-698` | at every point of every interleaving, accepted tokens = certificates + certificate errors + refusals for want of roles + requests in flight, and the tracker's counters count the audit log |
| `ExchangePipeline.EveryIssuedRoleIsJustified` | `pkg/server/server.go:623-641` | the issuer is called only for validated claims and with at least one role; a role is there if and only if a matching rule lists it, or no rule matches and it is a default, or there are no rules and it is static |
| `ExchangePipeline.LoggedCertificatesWereIssued` | `pkg/server/server.go:680-695` | every certificate in the audit log comes from a successful call with just those roles, for a token that validated |
| `ExchangePipeline.OnlyRulesRefuse` | `pkg/config/config.go:265-267` | with the defaults applied, only a server with rules ever refuses for want of a role |
| `ExchangePipeline.StaticRoles` | `pkg/config/config.go:265-267` | without rules every call to the issuer has the configured roles, or os:admin if there are none |
| `IssuedCertificates.EveryCertificateIsBacked` | `pkg/server/server.go:586-698` | in every interleaving, every certificate in the audit log comes from a call to the issuer with just its roles, each justified, for a token that a key of the provider signed, of the issuer, in time when checked, and with the server's audience as its claim or a member of it |
| `IssuedCertificates.AcceptedIsSigned` | `pkg/server/server.go:760` | as the server passes no list of algorithms, an accepted token is signed with a provider key of the algorithm's type, never with the client secret |
| `IssuedCertificates.OneSetOfClaims` | `pkg/oidc/jwt.go:91-204` | a token is accepted with one set of claims only |
| `ExchangePipeline.StepKeepsInv` | `pkg/server/server.go:586-698` | every step of every request keeps the conservation law, the counters and the justification of roles and log entries |
| `ExchangeHandler.HandleExchange` | `pkg/server/server.go:541-698` | a request in full: which answer each refusal for method, size and form gets, with nothing logged or counted; otherwise the audit events added to the log and to every listener, an answer that fits them, and a failure counted for the client exactly if one was logged |
| `ExchangeHandler.AnswersFitLog` | `pkg/server/server.go:586-698` | the answer is 401 exactly if a failed authentication was logged, 500 exactly if a certificate error was, 403 exactly if an authentication alone was, and a certificate exactly if one was logged, with just its roles |
| `ExchangeHandler.IssuedIsRecorded` | `pkg/server/server.go:680-695` | the records of all certificates grow by one exactly if one was issued, with subject, email, client, roles, expiry, lifetime and fingerprint from the claims and the request |
| `ExchangeHandler.Exchange` | `pkg/server/server.go:586-698` | from validation on: the audit events added, in order, to the log and to every listener, and an answer that fits them |
| `ExchangeHandler.HandlerIsARun` | `pkg/server/server.go:586-698` | what one request does alone is a run of the interleaved pipeline, with the same log, counters and issuer calls |
| `Tracking.TrackerMatchesHistory` | `pkg/admin/admin.go:99-168` | whatever was pruned before, a list of active certificates is exactly the unexpired ones of all ever issued, in order, and the counters count the audit history |
| `Tracking.CountIsCardinality` | `pkg/admin/admin.go:99-123` | the counts spoken of are the numbers of events of each kind |
| `AdminTracker.Tracker.HandleEvent` | `pkg/admin/admin.go:99-123` | one event: the counter of its kind, and a record with its fields for a certificate; nothing else |
| `AdminTracker.Tracker.PruneExpired` | `pkg/admin/admin.go:141-151` | pruning in place keeps exactly the unexpired records in order |
| `AdminTracker.Tracker.ActiveCerts` | `pkg/admin/admin.go:127-137` | the unexpired records, in a fresh array |
| `AdminTracker.Tracker.GetStats` | `pkg/admin/admin.go:155-168` | the start time, the uptime to the nearest second, the counters and the number of unexpired records |
| `AdminTracker.ListsAreKept` | `pkg/admin/admin.go:127-151` | through any events, lists and statistics, every list handed out still holds at the end what was answered |
| `AdminTracker.Logger.AddTracker` | `pkg/audit/audit.go:141-145` | registers one more listener; the others and the log stay |
| `AdminTracker.Logger.Log` | `pkg/audit/audit.go:148-170` | stamps an event without a time, writes it, and hands it once to every listener; an event that cannot be encoded reaches neither |
| `RoleMapping.MapRoles` | `pkg/rbac/rbac.go:46-91` | the roles of all matching rules without repeats, or the default list |
| `RoleMapping.MatchesValue` | `pkg/rbac/rbac.go:97-147` | a string as a whole or as one of several words; a JSON array or a list exactly if one of its members is the value; numbers and the rest never |
| `RoleMapping.AbsentValueGrantsNothing` | `pkg/rbac/rbac.go:66-91` | a role that is no default, and that only rules list whose value is not in the user's list, is not granted |
| `RoleMapping.SameWordsSameRoles` | `pkg/rbac/rbac.go:107-133` | a JSON array of words and the same words joined by spaces get the same roles from rules that ask for a word |
| `RoleMapping.FieldsSplit` | `pkg/rbac/rbac.go:107` | splitting at white space yields the words of the two sides |
| `RoleMapping.RolesAreJustified` | `pkg/rbac/rbac.go:66-91` | a role is granted if and only if some matching rule lists it, independent of the order and repetition of rules; the default list if none matches |
| `RoleMapping.MoreClaimsMoreRoles` | `pkg/rbac/rbac.go:66-83` | for users who match a rule, more claims never take a role away |
| `RoleMapping.DefaultsAreKeptExactly` | `pkg/rbac/rbac.go:80-83` | a user who matched none keeps the default roles under other claims if and only if still no rule matches or the matching rules list every one of them |
| `RoleMapping.DefaultsAreReplaced` | `pkg/rbac/rbac.go:80-83` | the default roles are replaced, not extended: growing claims can lose one |
| `RoleMapping.SpaceListMatches` | `pkg/rbac/rbac.go:107-116` | a claim of words joined by spaces matches exactly its words, and itself |
| `ClientAddress.ClientIsRightmostUntrusted` | `pkg/ratelimit/ratelimit.go:126-145` | behind a trusted peer the client is the rightmost hop that is not trusted, or the peer if all are; the header counts for nothing otherwise |
| `ClientAddress.PrefixDoesNotMatter` | `pkg/allowlist/allowlist.go:140-158` | nothing put in front of a header with an untrusted hop changes the client |
| `ClientAddress.MiddlewaresAgree` | `pkg/allowlist/allowlist.go:61-83` | once the allowlist accepts the proxy list, both middlewares see the same client in every request |
| `ClientAddress.AllowedExactly` | `pkg/allowlist/allowlist.go:106-133` | an accepted allowlist admits everyone if it has only blank entries, and otherwise exactly the addresses that some entry names or contains |
| `ClientAddress.ExtractIP` | `pkg/ratelimit/ratelimit.go:126-145` | the right-to-left walk returns the client of the specification |
| `ClientAddress.IsTrustedProxy` | `pkg/ratelimit/ratelimit.go:148-159` | an address that parses and lies in one of the networks |
| `ClientAddress.TrustedExactly` | `pkg/ratelimit/ratelimit.go:50-70` | the limiter trusts exactly the peers that some entry of its list names or contains, blank and unparseable entries counting for nothing |
| `ClientAddress.StrictErrExactly` | `pkg/allowlist/allowlist.go:61-83` | the proxy list is refused exactly if some entry is neither blank nor a network nor an address, naming the first |
| `ClientAddress.BuildErrExactly` | `pkg/allowlist/allowlist.go:33-57` | the allowlist is refused on the same terms |
| `ClientAddress.ParseNetsSkipping` | `pkg/ratelimit/ratelimit.go:50-70` | the networks of the entries that parse, in order |
| `ClientAddress.ParseNetsStrict` | `pkg/allowlist/allowlist.go:61-83` | the networks of all entries, or an error naming the first that does not parse |
| `ClientAddress.NewAllowlist` | `pkg/allowlist/allowlist.go:33-57` | the networks and addresses of all entries, or an error naming the first that does not parse |
| `ClientAddress.IsAllowed` | `pkg/allowlist/allowlist.go:106-133` | the two search loops decide as the specification |
| `TokenValidation.ValidateIDToken` | `pkg/oidc/jwt.go:91-204` | accepts exactly the acceptable tokens, with the claims they carry, the audience being the claim or a member of it; no token is refused for its claims unless its signature is good |
| `TokenValidation.Authenticate` | `pkg/oidc/jwt.go:103-158` | the checks up to the signature pass if and only if the token is authentic |
| `TokenValidation.CheckClaims` | `pkg/oidc/jwt.go:175-202` | the checks on the claims pass if and only if issuer, audience and time fit |
| `TokenValidation.FindKey` | `pkg/oidc/jwt.go:207-242` | the first key that fits: the one with the token's key id, or without one a key for the algorithm or of its type; none if none does |
| `TokenValidation.VerifyECDSA` | `pkg/oidc/jwt.go:308-369` | verifies against the very point the key names, as numbers, and the two halves of a signature of 64, 96 or 132 bytes |
| `TokenValidation.VerifyRSA` | `pkg/oidc/jwt.go:267-305` | verifies against the modulus and the exponent as read in 64 bits |
| `TokenValidation.VerifyEdDSA` | `pkg/oidc/jwt.go:372-396` | only a 32-byte Ed25519 key of type OKP |
| `TokenValidation.VerifySignature` | `pkg/oidc/jwt.go:245-264` | the verification that belongs to the algorithm, with a key of its type; none for an unknown one |
| `TokenValidation.ValidateAudience` | `pkg/oidc/jwt.go:424-451` | the audience is the claim, or the member of it at some index; anything else is refused |
| `TokenChecking.NoAlgorithmConfusion` | `pkg/oidc/jwt.go:136-158` | an authentic token is signed with the client secret, and then an HMAC algorithm is configured by name, or with a provider key of the algorithm's type and the token's key id |
| `TokenChecking.LifetimeExactly` | `pkg/oidc/jwt.go:186-202` | a token with a numeric exp is let through until less than one second after it and from less than 61 seconds before nbf, any other never; the exact bounds on a clock with fractions |
| `TokenChecking.IssuerExactly` | `pkg/oidc/jwt.go:175-179` | issuers fit if and only if they differ by one trailing slash at most |
| `TokenChecking.AudienceExactly` | `pkg/oidc/jwt.go:424-451` | the audience fits exactly if it is the claim or the member of it at some index |
| `TokenChecking.FittingTokenIsAcceptable` | `pkg/oidc/jwt.go:91-204` | an authentic token in time, of the issuer, that names the audience alone or in a list is accepted |
| `TokenChecking.AlgorithmIsListed` | `pkg/oidc/jwt.go:116-134` | an authentic token names an algorithm of the configured list, or of the default one, and never none |
| `TokenChecking.AcceptanceIsAnInterval` | `pkg/oidc/jwt.go:186-202` | with the keys unchanged, a token accepted at two moments is accepted at every moment in between |
| `TokenChecking.SplitsAsToken` | `pkg/oidc/jwt.go:92-95` | splitting at dots gives three parts if and only if the token is three dot-free parts joined by dots |
| `KeyBytes.ExponentIsExact` | `pkg/oidc/jwt.go:281-285` | the exponent is read right if and only if, leading zeros aside, it has at most seven bytes, or eight with the first below 128 |
| `KeyBytes.Exponent` | `pkg/oidc/jwt.go:281-285` | the shift-and-add loop in 64-bit arithmetic computes the big-endian number cut to 64 bits |
| `KeyBytes.PointRoundTrip` | `pkg/oidc/jwt.go:326-333` | the padded buffer names exactly the coordinates of the key, and no other buffer of that form does |
| `KeyBytes.EncodePoint` | `pkg/oidc/jwt.go:326-333` | coordinates that are too long are refused, the others are padded on the left |
| `CsvSettings.ReadUndoesJoin` | `charts/talosctl-oidc/templates/deployment.yaml:85-87` | reading gives back the list the chart joined if and only if every entry is non-empty, trimmed and comma-free |
| `CsvSettings.ReadIsClean` | `pkg/config/config.go:307-317` | no entry read is empty, untrimmed or carries a comma |
| `CsvSettings.RereadIsStable` | `pkg/config/config.go:307-317` | joining what was read and reading it again changes nothing, on every input |
| `CsvSettings.SplitCSV` | `pkg/config/config.go:309-317` | the loop returns the trimmed non-empty pieces in order |
| `Text.SplitJoin` | `pkg/config/config.go:311` | splitting undoes joining on separator-free pieces, but for the empty list |
| `Text.SplitAt` | `pkg/ratelimit/ratelimit.go:134` | a separator splits a string into what its two sides split into |
| `Text.TrimSpaceTrims` | `pkg/config/config.go:312` | a string is white space, what trimming leaves, and white space; what is left is trimmed |
| `Text.TrimmedIsUnique` | `pkg/ratelimit/ratelimit.go:136` | a trimmed string inside white space is what trimming leaves |

## Left out

- Cryptography, X.509, PEM and TLS: signature checks, points on a curve, matching key pairs and the issuer
  are parameters; a digest belongs to its algorithm and is not modelled apart from it.
- Base64, JSON and YAML decoding, HTTP, cookies, HTML pages and the OAuth callback: parameters or absent.
- Parsing of addresses and networks, membership, and splitting a peer address from its port: parameters.
- Widths of counters and durations: time, counters and lengths are unbounded integers. The one width that
  matters to a result, the RSA exponent, is modelled.
- Floating point: `exp` and `nbf` are real numbers, so a value too large for an integer is not cut as on the
  machine; `Duration.Seconds` and `Duration.Minutes` are exact, while the program's rounding can add a second to
  windows of many weeks with a fraction of nearly a second.
- Files that change while one of them is being read: a read sees one content, two reads can see two.
- Clock readings that go back, except in the interleaved limiter, where only the order of decisions is
  assumed and its necessity shown.
- Data races: the unlocked length read in the limiter's cleanup and the unguarded creation of the login
  guard and of the session store are taken as atomic.
- The interleaved models (limiter, login handler, exchange requests, reloader, cache) are state machines on
  values; the classes show one call at a time. They share the functions that say what a section does.
- `AdminTracker.Logger.Log`: the file is a sequence of events; write errors, which the program ignores, and
  listeners other than trackers are not modelled, and adding a tracker is one step with creating it.
- `AdminTracker.Tracker.GetStats`: the uptime is a duration, not its text.
- `ExchangeHandler.HandleExchange`: events without their constant texts, request ids and error messages; the
  hash of a token is an argument.
- `RoleMapping.MapRoles`: the order of granted roles is left open, as iteration over a map leaves it.
- `TokenValidation.ValidateIDToken`: a missing key set is an empty one; error texts are kinds of refusal.
- `TokenChecking.LifetimeExactly`: the clock is past the first second of 1970, where truncation and rounding
  down agree.
- `DevicePolling.PollDeviceToken`: with an interval that is not positive, and so no wait, each request takes
  some time; otherwise the clock would stand still.
- `CertWatching.NeverLapsesExactly`: a sleep and the checks around it overshoot by at least a nanosecond, and
  no attempt ends the program; authentication, the exchange and storing are one attempt.
- `KeySetCache.Issuer.CacheForIssuer`: without the provider's metadata that discovery returns.
- The order of the middlewares, the health and CA endpoints, and server start and stop: one-line compositions.
- The ticker behind the limiter's cleanup: cleanups come at any moment, in any number.
- The way the admin login derives a client address from headers: the address is an argument.
- Configuration files, environment precedence and validation, besides the list settings and default roles; a
  list setting that is empty never reaches the splitting, as the environment variable then counts as unset.
- Storage of certificates and tokens, contexts, status, logout and key-ring access: one-branch facts around I/O.
- Log lines and debug output.
