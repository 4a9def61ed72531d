# Verified models of the OxiRemote agent's control loops

The agent is a set of small stateful loops: an adaptive-bitrate controller, two tunnel health checks, the pairing
and approval tables, a session registry, an event bus, an encoder thread, a statistics aggregator, and some text
and arithmetic around tokens, rate limits, upload names and byte ranges. What matters about them is what every
run of them keeps, whatever arrives and in whatever order. This project models those loops in Dafny and proves it.

`dafny verify dfyconfig.toml` checks everything.

## How the models are built

Each stateful component has three layers. A datatype holds its fields and a function says what one step makes of
them. A class holds the same fields and updates them in place, branch by branch as the program does; each method's
`ensures` ties the new fields and the result to the step function. The theorems are about all finite sequences of
steps, with everything the component does not control left arbitrary: observations, probe outcomes, event arrivals,
which statement of a transaction fails, who runs next, what the encoder answers.

| file | component |
|---|---|
| `AdaptiveBitrate.dfy` | the bitrate controller and the loop that drives it |
| `EdgeHealthMonitor.dfy` | the long-running tunnel monitor |
| `HealthCheck.dfy` | the boot verification loop and the dashboard step it leads to |
| `Pairing.dfy` | pairing codes, one-time keys, sessions and devices as four tables under transactions |
| `RateLimiter.dfy` | pairing attempts per key and time bucket, and the cleanup |
| `Tokens.dfy` | signed session tokens and share tokens |
| `DesktopRegistry.dfy` | the single-viewer registry, one map access at a time |
| `SinkRace.dfy` | data channel against timer, one atomic access at a time |
| `Events.dfy` | the event bus and its snapshot for late subscribers |
| `Av1Pipeline.dfy` | the AV1 encoder thread |
| `StatsAggregator.dfy` | the per-second statistics of a desktop session |
| `KeyUsage.dfy` | the merged list of recent key usage |
| `UploadNames.dfy` | free names for uploads, and sanitizing |
| `HttpRange.dfy` | range downloads |
| `Common.dfy`, `Text.dfy`, `Float32.dfy` | options, fixed-width integers; printing, parsing and splitting text; rounding to single precision |

## Results worth knowing

* The bitrate controller is never in its Probe zone, so it only ever asks for the ceiling or for the ceiling cut
  once. Congestion cuts at the very next tick; coming back takes the full hysteresis and the anti-thrash wait, and
  happens as soon as both are met. A stretch of time `W` sees at most `2 * (W / anti_thrash) + 3` zone changes.
* The edge monitor's 60-second respawn throttle never acts: respawns are at least 210 seconds apart anyway, and
  there is exactly one for every three failures in a row.
* Every session has a device row, so the cookie path and the Bearer path admit the same devices, and a revoked
  device is out for good. A pairing code or one-time key makes one device at most, and a transaction that fails
  anywhere leaves the tables and the credential as they were.
* A rate-limited attempt is allowed exactly when fewer than `limit` earlier ones had the same key in the same
  bucket; cleanups never change an answer.
* A keyframe request stays pending until an encode forced for it succeeds, but a captured frame's own demand for a
  keyframe is lost if its rebuild or its encode fails (`DemandLastsOneRound`, `DemandLost`).
* Ten newest of each table, merged and cut to ten, are ten newest of both.
* A client that walks a file in chunks until the 416 has the file.

## Where the code and its comments differ

The models follow the code.

* `tick` clears the window before `transition_to` reads it, so with a positive loss threshold a cut is always
  labelled "rtt_high" (`RecoveryReason` gives the exact condition).
* A ceiling below the floor is raised to the floor.
* A session that ends removes the registry entry of its device, not its own: a viewer who was evicted closes, on
  its way out, the viewer who took over (`TrailingRemove` says exactly when, `NewestNeedNotSurvive` shows a run).
* A comment on the event bus says that a subscriber who reads the snapshot and subscribes afterwards misses
  nothing. It can (`ReadingFirstMisses`): what is missed is exactly what is mirrored after the read and broadcast
  before the subscription (`MissedExactly`). Subscribing first, as the terminal dashboard does, is therefore safe
  (`NothingMissed`). With two senders out of step even that subscriber can end with an older value
  (`OutOfOrderDisagrees`); `AgreesExactly` says when it does not.
* Generating a one-time key is two statements and no transaction, and the failure of the first is ignored. "One
  live key" therefore fails in two ways, through an overlapping call (`OverlappingGenerations`) and through an
  expiry that did not happen (`FailedExpiry`). It holds exactly when no key that an overlapping call inserted, or
  that a failed expiry should have caught, is still live (`OneLiveKey`).

## Modelling assumptions

* Loss percentages are reals; a NaN loss, which never compares greater, has no counterpart. The
  indices of percentiles are computed with the rounding of 32-bit floats.
* Clocks are integers. A run's clock does not run backwards where a lemma says so; wall-clock seconds are
  non-negative 64-bit values.
* Integer widths are explicit: `u32` saturation, truncation and wrap-around (as in a release build), `i64` and `u64`
  ranges of parsed numbers, wrap-around of the token's age.
* Random identifiers, one-time tokens and keys are fresh values given to the step. The password hash verifies the key
  it was made from and no other; the keyed hash of tokens is an arbitrary function.
* A transaction is one atomic step, and its failure, at any statement, rolls it back. A statement outside a
  transaction works or changes nothing. The order in which a query
  returns rows it is not asked to order is arbitrary.
* Columns that nothing modelled here depends on (labels, addresses, platforms, last-seen times) are left out of rows.

## Model

| member | source | states |
|---|---|---|
| AdaptiveBitrate.AbrController.constructor | agent/src/desktop_abr.rs:251-272 | starts in Comfort at the ceiling, which is raised to the floor |
| AdaptiveBitrate.AbrController.Observe | agent/src/desktop_abr.rs:275-292 | a network observation raises the window's worst loss and RTT and its count, an encode observation changes nothing |
| AdaptiveBitrate.WindowHolds | agent/src/desktop_abr.rs:275-292 | after any observations, the window's maxima bound every loss and RTT seen, and a non-empty count means some network feedback came |
| AdaptiveBitrate.WindowAttained | agent/src/desktop_abr.rs:275-292 | the maxima are values really observed (or at rest), and fewer than 2^32 observations never look like an empty window |
| AdaptiveBitrate.AbrController.ApplyHysteresis | agent/src/desktop_abr.rs:373-415 | which transition is granted at once, after a streak, or not at all, and what is then pending |
| AdaptiveBitrate.HysteresisKeepsPending | agent/src/desktop_abr.rs:373-415 | only a return to Comfort is ever pending, below the tick threshold, and a granted transition leaves nothing pending |
| AdaptiveBitrate.AbrController.TransitionTo | agent/src/desktop_abr.rs:417-453 | a cut, a step up or the full ceiling, clamped between floor and ceiling, with the decision that reports it |
| AdaptiveBitrate.AbrController.Tick | agent/src/desktop_abr.rs:297-342 | classification, hysteresis, cleared window and transition in that order, as one step on the whole state |
| AdaptiveBitrate.AbrController.Drive | agent/src/desktop_abr.rs:511-564 | for every sequence of ticks and observations, the controller's loop reaches the state and takes the decisions of the run the theorems are about |
| AdaptiveBitrate.InvStep | agent/src/desktop_abr.rs:275-453 | one tick with any observations keeps the invariant: no Probe, full ceiling in Comfort, one cut in Recovery; and the decision reports it truthfully |
| AdaptiveBitrate.InvAlways | agent/src/desktop_abr.rs:251-453 | the invariant holds before every tick of every run |
| AdaptiveBitrate.ReachableStates | agent/src/desktop_abr.rs:251-453 | every decision of every run is Comfort with the ceiling or Recovery with the ceiling less one cut, worked out in saturating 32-bit arithmetic and never below the floor; it flags a change exactly when the zone changed, and says why |
| AdaptiveBitrate.RecoveryReason | agent/src/desktop_abr.rs:301-430 | a cut is labelled "loss_high" if and only if the loss threshold is not positive, whatever caused it |
| AdaptiveBitrate.RecoveryClassified | agent/src/desktop_abr.rs:346-371 | the window classifies as Recovery when some observation in it reached a threshold, and in Comfort only then |
| AdaptiveBitrate.CongestionCutsAtOnce | agent/src/desktop_abr.rs:297-415 | a tick after any bad observation ends in Recovery whatever the gates; a tick that leaves Comfort for Recovery had one |
| AdaptiveBitrate.ComfortClassified | agent/src/desktop_abr.rs:346-371 | in Recovery a window classifies as Comfort if and only if it had network feedback and all of it was good |
| AdaptiveBitrate.RecoveryStep | agent/src/desktop_abr.rs:373-453 | the whole of any tick in Recovery: a calm window after the wait counts, at the threshold it ends the stay with the full ceiling, before the wait it changes nothing, any other window restarts the count |
| AdaptiveBitrate.ReturnsToComfort | agent/src/desktop_abr.rs:392-453 | in every run, `hysteresis_ticks` calm ticks past the anti-thrash wait bring the controller back to Comfort and the ceiling |
| AdaptiveBitrate.TwoZoneRefinement | agent/src/desktop_abr.rs:297-415 | on reachable states the controller refines a machine of two zones with a streak of healthy ticks |
| AdaptiveBitrate.RecoveryHistory | agent/src/desktop_abr.rs:373-415 | in every run the streak counts healthy ticks just past, each after the anti-thrash wait, and a stay in Recovery began at its last transition |
| AdaptiveBitrate.RecoveryExit | agent/src/desktop_abr.rs:344-415 | Recovery ends only after the last `hysteresis_ticks` ticks of the same stay were all healthy and all `anti_thrash` after it began |
| AdaptiveBitrate.ChangesAlternate | agent/src/desktop_abr.rs:297-415 | in any stretch of ticks, zone changes are twice the recoveries, give or take the zones at its ends |
| AdaptiveBitrate.RecoveryWaits | agent/src/desktop_abr.rs:373-415 | every change to Comfort comes `anti_thrash` at least after the change before it |
| AdaptiveBitrate.RecoveriesAreSpaced | agent/src/desktop_abr.rs:373-415 | n recoveries in a stretch of ticks take n - 1 anti-thrash waits at least |
| AdaptiveBitrate.ZoneChangesBounded | agent/src/desktop_abr.rs:373-415 | a span of time sees at most twice its number of anti-thrash waits plus three zone changes |
| HealthCheck.ClockAtLeast | agent/src/health_check.rs:269-305 | attempt k starts no earlier than k sleeps after the first |
| HealthCheck.RunHealthCheck | agent/src/health_check.rs:199-308 | at most four attempts; every success or server error ends the loop at once with that answer and nothing else ends it before the window does; one lookup per attempt until the first answer other than NXDOMAIN and none after; NXDOMAIN if and only if every lookup said so, otherwise the last probe's answer |
| HealthCheck.ProbeOutcomeToStep | agent/src/main.rs:1443-1490 | Degraded if and only if there is a reason, which carries the status or message; "not registered" if and only if NXDOMAIN; Ready exactly for success, timeout (as inconclusive) and client errors other than 401 and 403 |
| HealthCheck.VerifyTunnel | agent/src/main.rs:1443-1490 | loop and mapping composed: "not registered" exactly when all lookups in a used-up window said NXDOMAIN; one good probe gives unqualified Ready, one server error gives Degraded with its status |
| EdgeHealthMonitor.NextBackoff | agent/src/edge_health_monitor.rs:206-209 | never shrinks the interval and never passes the maximum |
| EdgeHealthMonitor.EdgeMonitor.constructor | agent/src/edge_health_monitor.rs:65-78 | starts idle with the initial sleep |
| EdgeHealthMonitor.EdgeMonitor.RunProbe | agent/src/edge_health_monitor.rs:126-204 | a good probe resets and announces an owed recovery, a bad one counts, backs off and at the third fires a respawn unless throttled |
| EdgeHealthMonitor.EdgeMonitor.Turn | agent/src/edge_health_monitor.rs:80-121 | each event and each elapsed sleep as one step on the whole state, with what it announces |
| EdgeHealthMonitor.EdgeMonitor.Run | agent/src/edge_health_monitor.rs:80-121 | for every sequence of events and probe results, the loop reaches the state and produces the outputs of the run the theorems are about |
| EdgeHealthMonitor.InvStep | agent/src/edge_health_monitor.rs:80-204 | every turn keeps: fewer than three failures, interval 30 doubled per failure, and the time the running sleep puts between the last respawn and now; a third failure comes 210 seconds after the last respawn |
| EdgeHealthMonitor.InvAlways | agent/src/edge_health_monitor.rs:80-121 | in every run, between turns, the interval is 30 doubled once for each of at most two failures |
| EdgeHealthMonitor.NeverThrottled | agent/src/edge_health_monitor.rs:180-203 | the throttled branch is never taken |
| EdgeHealthMonitor.RespawnRemembered | agent/src/edge_health_monitor.rs:184-190 | the recorded respawn time is never older than any respawn of the run so far |
| EdgeHealthMonitor.RespawnsApart | agent/src/edge_health_monitor.rs:80-209 | any two respawns of a run are at least 210 seconds apart |
| EdgeHealthMonitor.SleepsLast | agent/src/edge_health_monitor.rs:77-116 | each sleep lasts 30, 60 or 120 seconds by the failures that count when it is set, and no event moves its end |
| EdgeHealthMonitor.RespawnPerThreeFailures | agent/src/edge_health_monitor.rs:167-203 | between two resets, n failed probes, counted from what came in, ask for exactly n / 3 respawns, counted in what went out, and the counter holds n % 3 |
| EdgeHealthMonitor.TurnSays | agent/src/edge_health_monitor.rs:144-203 | the whole output of any turn: the failures of the URL probed and then one respawn at the third failure, one Ready when a recovery is owed and the probe goes well, nothing otherwise |
| EdgeHealthMonitor.RespawnAnnounced | agent/src/edge_health_monitor.rs:180-203 | each turn asks for one respawn, reported once as three failures of the URL probed, if it is the third failed probe in a row, and for none otherwise |
| EdgeHealthMonitor.ProbeGate | agent/src/edge_health_monitor.rs:84-107 | the monitor is engaged exactly if Ready or Degraded was reported since the last change of URL, and the URL it probes is the one last announced |
| EdgeHealthMonitor.ProbesDue | agent/src/edge_health_monitor.rs:103-116 | a turn probes if and only if a sleep runs out with a URL that has been reported Ready or Degraded since it was announced |
| EdgeHealthMonitor.AnnouncementsOwed | agent/src/edge_health_monitor.rs:152-165 | Ready is never announced more often than Degraded was reported |
| EdgeHealthMonitor.RecoveryOwed | agent/src/edge_health_monitor.rs:84-165 | a recovery is owed exactly when Degraded was reported and no Ready, new URL or good probe came since |
| EdgeHealthMonitor.RecoveryAnnounced | agent/src/edge_health_monitor.rs:152-165 | Ready is announced once by a good probe while a recovery is owed, for the URL probed, and never otherwise |
| Pairing.AgentDb.constructor | agent/src/db.rs:13-30 | all four tables are empty |
| Pairing.AgentDb.CreatePairingCode | agent/src/http_pages.rs:35-49 | one unused row that expires in 300 seconds; refused, with nothing changed, if the code exists or the statement fails |
| Pairing.AgentDb.ApiPairingExchange | agent/src/http_pages.rs:153-205 | statement by statement with a failure anywhere: either all tables as before, or the code used and one session, device and key added together |
| Pairing.AgentDb.ApiPairingExchangePermanent | agent/src/http_pages.rs:95-134 | the same for the permanent key, which is not used up |
| Pairing.AgentDb.ConsumeOtkTx | agent/src/one_time_keys.rs:90-118 | succeeds exactly for an unused, unexpired key if neither statement fails, and marks that row only |
| Pairing.AgentDb.ApiLoginOneTime | agent/src/http_pages.rs:474-530 | statement by statement: either all tables as before, or the key consumed by the new device and one session, device and key added together |
| Pairing.AgentDb.LoginRows | agent/src/http_pages.rs:185-201 | inserting the session, upserting the device, binding and issuing the key leave, for fresh ids, one bound session and one device row with the given approval and key |
| Pairing.AgentDb.GenerateOtk | agent/src/one_time_keys.rs:26-54 | both statements with either failing: afterwards the live keys are the new one, if it was inserted, and the old live ones, if they could not be expired |
| Pairing.AgentDb.ExpireLiveOtks | agent/src/one_time_keys.rs:35-39 | every live key is marked used and no other row changes |
| Pairing.AgentDb.ActiveOtk | agent/src/one_time_keys.rs:59-84 | a newest live key, or none exactly if none is live or the query fails |
| Pairing.AgentDb.ApproveDevice | agent/src/approval.rs:22-34 | that device's approval and nothing else changes; an error, with nothing changed, exactly for an unknown device or a failing statement |
| Pairing.AgentDb.RejectDevice | agent/src/approval.rs:37-49 | that device's approval and nothing else changes; an error, with nothing changed, exactly for an unknown device or a failing statement |
| Pairing.AgentDb.RevokeDevice | agent/src/auth.rs:257-265 | the first revocation is kept, nothing else changes, and an unknown device is no error; a failing statement changes nothing |
| Pairing.AgentDb.VerifyApiKey | agent/src/auth.rs:445-483 | an answer is an eligible device whose key matches; no answer means that the query failed or that every eligible match has other last four characters on record |
| Pairing.OtherStepsFrame | agent/src/http_pages.rs:35-205 | a step that grants no login keeps sessions, keys and used credentials, and lifts no revocation |
| Pairing.LoginSteps | agent/src/http_pages.rs:153-205 | a login that goes through had an unspent credential, spends it, and adds one session, one device and one key |
| Pairing.LoginKeepsInv | agent/src/http_pages.rs:153-205 | a successful login of any kind keeps the correspondence of grants and rows |
| Pairing.InvStep | agent/src/http_pages.rs:153-205 | every step, failing or not, keeps it |
| Pairing.InvReachable | agent/src/http_pages.rs:70-205 | it holds after every run from empty tables |
| Pairing.CookieAnswer | agent/src/auth.rs:197-225 | a session speaks for its device unless that device has a row that is revoked or not approved |
| Pairing.AuthPathsAgree | agent/src/auth.rs:197-225 | in every reachable database each session's device has a row, and both the cookie path and the Bearer filter let it in exactly if it is approved and not revoked |
| Pairing.DevicesHaveSessions | agent/src/http_pages.rs:185-201 | every device has a session bound to it |
| Pairing.KeysIdentifyDevices | agent/src/auth.rs:421-483 | a key matches one device at most, and the last-four pre-filter never hides that device |
| Pairing.BearerExact | agent/src/auth.rs:445-483 | in every reachable database, a query that works answers with a device if and only if the key was issued to it and it is approved and not revoked |
| Pairing.DeviceStep | agent/src/approval.rs:22-49 | no step lifts a revocation, and only an approval or rejection of that device changes its approval |
| Pairing.RevokeRevokes | agent/src/auth.rs:257-265 | revoking stamps that device, the first time, and changes no other field, device or table |
| Pairing.RevokedOut | agent/src/auth.rs:197-265 | from the moment of a revocation, of any device and with any steps after it, neither path admits the device |
| Pairing.RevokedForever | agent/src/auth.rs:197-265 | after a revocation no sequence of steps gets the device past the cookie path or the Bearer filter, and the time of revocation stays |
| Pairing.OutUntilApproved | agent/src/approval.rs:22-49 | a pending or rejected device stays out through any steps that do not approve it |
| Pairing.ApprovalSets | agent/src/approval.rs:22-49 | approving or rejecting sets that device's approval and changes no other field, device or table |
| Pairing.ApprovedIn | agent/src/approval.rs:22-34 | approving a device of any reachable database that is not revoked lets its sessions and its key in |
| Pairing.LoginAdmits | agent/src/http_pages.rs:153-205 | a login lets its own session and key in if and only if it came with approval |
| Pairing.PendingLogin | agent/src/approval.rs:22-49 | a device that logged in without approval stays out through any steps that do not approve it |
| Pairing.ExchangeAnswer | agent/src/http_pages.rs:153-205 | accepted exactly if the code is there, unused and not past its time and no statement fails; which error otherwise; a refusal changes nothing |
| Pairing.OtkAnswer | agent/src/http_pages.rs:474-530 | accepted exactly if the key is there, unused and before its time and no statement fails; which error otherwise; a refusal changes nothing |
| Pairing.PermanentKeyAnswer | agent/src/http_pages.rs:95-134 | accepted exactly if the key is valid and no statement fails; which error otherwise; a refusal changes nothing |
| Pairing.CodeLifetime | agent/src/http_pages.rs:35-49 | a new code works for 300 seconds and no longer, through any steps that do not use it |
| Pairing.OtkLifetime | agent/src/one_time_keys.rs:26-54 | a new one-time key works for less than 1800 seconds, through any steps that neither use it nor regenerate |
| Pairing.ExpiryExact | agent/src/one_time_keys.rs:34-39 | expiring marks exactly the unused, unexpired keys used and changes nothing else |
| Pairing.CredentialOnce | agent/src/http_pages.rs:153-205 | over every interleaving a code or one-time key creates one device at most, every device created has its session and its key, and there are no other devices |
| Pairing.OtkBijection | agent/src/http_pages.rs:474-508 | rows stamped with a device and devices created by one-time keys correspond one to one |
| Pairing.ConsumedByGrant | agent/src/http_pages.rs:480-485 | a row is stamped with a device if and only if a login with that key created that device |
| Pairing.RegeneratedNeverConsumed | agent/src/one_time_keys.rs:35-39 | a key already marked used, by regeneration or otherwise, never gets a new or different consumer |
| Pairing.FailedLoginRetries | agent/src/http_pages.rs:153-205 | with a usable credential, a login fails exactly if a statement fails, then changes nothing, and the same credential works on retry |
| Pairing.LiveComesFrom | agent/src/one_time_keys.rs:26-54 | a key live after some steps was live before or inserted by them |
| Pairing.OneLiveKey | agent/src/one_time_keys.rs:26-54 | whether or not the expiry works, and with any steps between the two statements, the new key is the only live one if and only if no key inserted between, and none that a failed expiry should have caught, is still live |
| Pairing.OverlappingGenerations | agent/src/one_time_keys.rs:26-54 | two overlapping calls leave two live keys |
| Pairing.FailedExpiry | agent/src/one_time_keys.rs:34-39 | a failed expiry, which is ignored, leaves two live keys with no overlap of calls |
| RateLimiter.NowBucket | agent/src/auth.rs:690-692 | the bucket is the whole number of windows before now |
| RateLimiter.PairingAttempts.ShouldAllowPairingAttempt | agent/src/auth.rs:698-712 | refused and unchanged at the limit, otherwise one more in that key's current bucket only |
| RateLimiter.PairingAttempts.ClearStalePairingAttempts | agent/src/auth.rs:714-732 | exactly the counters whose text after the last colon is a smaller bucket number go |
| RateLimiter.CompositeBucket | agent/src/auth.rs:698-725 | parsing after the last colon gives back the bucket, whatever colons the key has |
| RateLimiter.CompositeInjective | agent/src/auth.rs:698-706 | two counters share a name only if key and bucket agree |
| RateLimiter.CountersHold | agent/src/auth.rs:698-732 | with cleanups anywhere, the counter of the current bucket is the number of attempts in it, up to the limit |
| RateLimiter.AnswerExact | agent/src/auth.rs:698-732 | an attempt is allowed if and only if fewer than `limit` earlier ones had its key and bucket |
| RateLimiter.CleanupChangesNothing | agent/src/auth.rs:714-732 | a cleanup inserted anywhere in a run leaves every later answer as it was |
| RateLimiter.CleanupExact | agent/src/auth.rs:714-732 | after a cleanup the counters of past buckets are gone and all others are as they were |
| RateLimiter.CleanupKeepsOthers | agent/src/auth.rs:714-732 | a name whose last field is no number stays |
| RateLimiter.PassedFillsRoom | agent/src/auth.rs:698-712 | the attempts let through over two neighbouring buckets fill the room each had, no more and no less |
| RateLimiter.PassedBounded | agent/src/auth.rs:698-712 | at most `limit` in one bucket and `2 * limit` in any stretch no longer than the window, both ends included |
| Tokens.HexRoundTrip | agent/src/auth.rs:31-64 | decoding what was encoded gives the bytes back, and the text has no dot |
| Tokens.NibbleDigits | agent/src/auth.rs:57 | hexadecimal digits of either case are read, and nothing else |
| Tokens.SessionRoundTrip | agent/src/auth.rs:31-64 | verifying a signed session token gives the id exactly if the id has no dot and the time to live has not passed |
| Tokens.ShareRoundTrip | agent/src/preview_token.rs:12-44 | verifying a signed share token gives both ids exactly if neither has a dot and the expiry has not passed |
| Tokens.NotBoth | agent/src/preview_token.rs:10-44 | no string is accepted by both verifiers at any times |
| Tokens.PayloadsDisjoint | agent/src/preview_token.rs:10-19 | no payload signed for one kind of token is one the other kind checks |
| Tokens.AcceptedSession | agent/src/auth.rs:42-64 | an accepted session token carries the hash for exactly the dot-free id returned and is within its time unless it claims to predate the epoch |
| Tokens.AcceptedShare | agent/src/preview_token.rs:21-44 | an accepted share token carries the hash for exactly the dot-free ids returned and has not expired |
| Tokens.DotsConserved | agent/src/preview_token.rs:22-30 | splitting loses no dot, and every field but the last is free of them |
| DesktopRegistry.DesktopService.EvictOld | agent/src/desktop_service.rs:45-47 | the device's entry goes and whoever held it is told |
| DesktopRegistry.DesktopService.InsertNew | agent/src/desktop_service.rs:49-59 | the new handle is the entry; a handle it replaces is dropped, which tells its session |
| DesktopRegistry.DesktopService.Register | agent/src/desktop_service.rs:42-60 | uninterrupted, the old holder alone is told and the new session holds the device |
| DesktopRegistry.DesktopService.Remove | agent/src/desktop_service.rs:101-103 | the device's entry goes, whoever it belongs to |
| DesktopRegistry.DesktopService.Kick | agent/src/desktop_service.rs:109-116 | the holder is told, and the answer says whether there was one |
| DesktopRegistry.InvStep | agent/src/desktop_service.rs:42-116 | every step of every session keeps: handles in the map are exactly the registered sessions not told |
| DesktopRegistry.Freed | agent/src/desktop_service.rs:42-116 | a registration that begins, or a kick, frees the device at once and tells whoever held it, and nobody else |
| DesktopRegistry.Held | agent/src/desktop_service.rs:49-60 | the second half of a registration makes the session the holder and tells one that came in between |
| DesktopRegistry.SingleViewer | agent/src/desktop_service.rs:42-60 | in every interleaving at most one registered session per device has not been told, and its handle is the one in the map |
| DesktopRegistry.QuiescentViewer | agent/src/desktop_service.rs:42-116 | with no registration under way, any session not told holds its device's entry; when all have ended the map is empty |
| DesktopRegistry.TrailingRemove | agent/src/desktop_ws.rs:412-430 | a session's trailing remove closes another session if and only if it had itself been told and the device has been taken over |
| DesktopRegistry.NewestNeedNotSurvive | agent/src/desktop_ws.rs:425-428 | a run in which the evicted viewer's exit closes the viewer who evicted it |
| SinkRace.InvStep | agent/src/desktop_ws.rs:1681-1767 | every access by callback, timer or main loop keeps: flag and outcome agree, and an open orphan has a close before it |
| SinkRace.SignalSent | agent/src/desktop_ws.rs:1698-1728 | in every run the signal is there exactly if the callback sent it, and while the main loop selects it leads to the data channel |
| SinkRace.CallbackDecides | agent/src/desktop_ws.rs:1690-1728 | the callback closes exactly if the timer has stored its choice and signals otherwise; a data channel is chosen only after a signal |
| SinkRace.OneSink | agent/src/desktop_ws.rs:1717-1740 | on a normal exit exactly one sink is chosen, the flag says which, and it never changes |
| SinkRace.OrphanIsClosed | agent/src/desktop_ws.rs:1693-1739 | with the WebSocket chosen, an opened channel has a close after its opening once callback and main loop are through |
| SinkRace.ChosenChannelStaysOpen | agent/src/desktop_ws.rs:1693-1728 | with the data channel chosen, it has opened and was never closed |
| Events.EventBus.MirrorIntoSnapshot | agent/src/events.rs:283-301 | the snapshot changes as the event says |
| Events.EventBus.Send | agent/src/events.rs:283-305 | uninterrupted, the event is broadcast and the snapshot stays the fold of the history |
| Events.EventBus.Execute | agent/src/events.rs:283-316 | for every interleaving of the halves of sends with a subscription and a read, the bus ends with the snapshot and broadcast, and the subscriber with the copy and the deliveries, that the theorems are about |
| Events.InvStep | agent/src/events.rs:283-316 | every interleaved half of a send, subscription or read keeps: the snapshot is the fold of what was mirrored |
| Events.ReadHolds | agent/src/events.rs:311-316 | the snapshot read holds exactly the events mirrored before the read |
| Events.DeliveryHolds | agent/src/events.rs:303-309 | the subscriber is sent exactly the events broadcast after the subscription |
| Events.MissedExactly | agent/src/events.rs:283-316 | in every run, whichever of read and subscription comes first, a send is missed if and only if it is mirrored after the read and broadcast before the subscription |
| Events.NothingMissed | agent/src/events.rs:283-316 | subscribing first, every event broadcast is in the snapshot read or delivered, in every interleaving of senders |
| Events.ReadingFirstMisses | agent/src/events.rs:284-286 | a run that reads first, contrary to the comment there, and in which an event is missed; MissedExactly gives the exact condition |
| Events.FoldIsOverlay | agent/src/events.rs:288-300 | for each field, folding events gives what the last of them to touch it says, or leaves it as it was |
| Events.OverlapHarmless | agent/src/events.rs:283-316 | folding any tail that overlaps a prefix over that prefix's state gives the state of the whole |
| Events.AgreesExactly | agent/src/events.rs:283-316 | with all sends complete, in any order of their halves, a subscriber who subscribed first and folds what it was sent over what it read has the current state if and only if, for each field touched by what it was sent, the last to touch it says what the last mirrored one says |
| Events.SubscriberAgrees | agent/src/events.rs:283-316 | in particular it has the current state, despite the overlap, when the halves came in the same order |
| Events.OutOfOrderDisagrees | agent/src/events.rs:283-305 | a run with two senders out of step in which it does not; AgreesExactly gives the exact condition |
| Av1Pipeline.Av1Thread.constructor | agent/src/av1_pipeline.rs:100-114 | starts with an encoder of the configured size and bitrate and nothing pending |
| Av1Pipeline.Av1Thread.DrainToNewest | agent/src/av1_pipeline.rs:146-150 | the newest queued frame, and whether any queued frame forces a keyframe |
| Av1Pipeline.Av1Thread.TakeRequests | agent/src/av1_pipeline.rs:121-133 | requests drained become pending; a new bitrate is recorded exactly if the encoder took it |
| Av1Pipeline.Av1Thread.Turn | agent/src/av1_pipeline.rs:116-241 | requests, bitrate, newest frame, rebuild, encode and its outcome as one step on the whole state, with the call made to the encoder |
| Av1Pipeline.Configured | agent/src/av1_pipeline.rs:100-175 | in every run the encoder has the dimensions of the last frame an encoder could be had for and the bitrate last accepted, also across rebuilds |
| Av1Pipeline.CallsExactly | agent/src/av1_pipeline.rs:138-195 | a round encodes if and only if a frame is queued and the encoder fits it or can be rebuilt |
| Av1Pipeline.EncodeCallRight | agent/src/av1_pipeline.rs:138-195 | every encode gets the newest frame, an encoder of its size and of the bitrate last accepted, and forces a keyframe exactly if a queued frame asked or requests are honoured |
| Av1Pipeline.PliNeverLost | agent/src/av1_pipeline.rs:121-197 | a request is pending if and only if one was drained and no encode forced for it has succeeded since |
| Av1Pipeline.LastKeyframe | agent/src/av1_pipeline.rs:198-199 | the recorded time is that of the latest keyframe |
| Av1Pipeline.PliThrottle | agent/src/av1_pipeline.rs:177-199 | in every run a pending request is honoured if and only if every keyframe so far is at least a second old |
| Av1Pipeline.DemandLastsOneRound | agent/src/av1_pipeline.rs:146-241 | a queued frame's own demand for a keyframe is met in the round that drains it if and only if any rebuild needed works and the encode succeeds; no other round's state or call depends on it |
| Av1Pipeline.DemandLost | agent/src/av1_pipeline.rs:236-241 | a run in which an encode fails and the keyframe its frame asked for is never forced |
| StatsAggregator.Percentiles | agent/src/desktop_stats_sse.rs:198-208 | the slice ends up sorted, and the results are the values of the 50 and 95 percent ranks, the first no larger |
| StatsAggregator.PickIndex | agent/src/desktop_stats_sse.rs:203-206 | in the single precision of the program the index is in bounds for every window size |
| StatsAggregator.PickNear | agent/src/desktop_stats_sse.rs:203-206 | for every window size the index is off the exact place by no more than a half and one part in 40,000 of the size |
| StatsAggregator.PickNearest | agent/src/desktop_stats_sse.rs:203-206 | for windows of up to half a million samples the single-precision index is the exact place rounded to nearest, halves up |
| StatsAggregator.MedianNoLater | agent/src/desktop_stats_sse.rs:203-207 | the index of the median is never past that of the 95th percentile, for any window size |
| StatsAggregator.SortedFacts | agent/src/desktop_stats_sse.rs:202 | sorting orders, permutes and keeps all rank counts |
| StatsAggregator.SortedHasRanks | agent/src/desktop_stats_sse.rs:202-207 | the k-th sorted sample is the value of rank k |
| StatsAggregator.RankUnique | agent/src/desktop_stats_sse.rs:202-207 | only one value has a given rank |
| StatsAggregator.Aggregator.Fold | agent/src/desktop_stats_sse.rs:120-161 | a network observation replaces the values it has, an encode observation joins the window |
| StatsAggregator.Aggregator.Emit | agent/src/desktop_stats_sse.rs:163-193 | reports the window, then clears it and keeps the network values |
| StatsAggregator.QuantileByRank | agent/src/desktop_stats_sse.rs:198-208 | a reported quantile is the one value of its rank |
| StatsAggregator.WindowHolds | agent/src/desktop_stats_sse.rs:120-193 | in every run the window holds exactly the encodes since the last emit: times, keyframes, peaks attained |
| StatsAggregator.SnapshotRight | agent/src/desktop_stats_sse.rs:163-193 | every snapshot reports exactly that window, with its order statistics |
| StatsAggregator.Conservation | agent/src/desktop_stats_sse.rs:120-193 | frames (and keyframes) reported plus those still in the window are those observed if and only if every emitted window fitted 32 bits, and never more |
| StatsAggregator.LatestCarriesOver | agent/src/desktop_stats_sse.rs:120-193 | network values and bitrate are the last observed, across emits |
| KeyUsage.QueryRecentKeyUsage | agent/src/agent_api.rs:1221-1330 | for any two tables, the result is the ten newest of the consumed keys and the devices not revoked, as far as the queries succeed |
| KeyUsage.NewestRows | agent/src/agent_api.rs:1236-1320 | a limited query gives the ten newest rows that pass its filter, in some order of ties, or none if it fails |
| KeyUsage.OtkListed | agent/src/agent_api.rs:1226-1245 | a one-time key is listed if and only if a device consumed it: regeneration alone lists none |
| KeyUsage.OtkListedOnce | agent/src/agent_api.rs:1236-1247 | each consumed key is listed as often as it is in the table, and nothing else |
| KeyUsage.DeviceListed | agent/src/agent_api.rs:1281-1290 | a device is listed if and only if it is not revoked |
| KeyUsage.DeviceListedOnce | agent/src/agent_api.rs:1281-1290 | each device not revoked is listed as often as it is in the table, and nothing else |
| KeyUsage.MergeRows | agent/src/agent_api.rs:1322-1330 | if the lists are the ten newest of each of any two tables, the result is the ten newest of both |
| KeyUsage.SortSorts | agent/src/agent_api.rs:1324-1328 | sorted newest first, the same rows |
| KeyUsage.TopHolds | agent/src/agent_api.rs:1322-1329 | k rows no older than t put the first k of a sorted list at t or later |
| KeyUsage.LeftOutIsOlder | agent/src/agent_api.rs:1236-1330 | a row that one limited query leaves out is no newer than any of the first ten merged |
| KeyUsage.MergeNewest | agent/src/agent_api.rs:1236-1330 | limiting first, then merging and limiting again, is limiting the union, for any limit and any tables |
| KeyUsage.TimesAgree | agent/src/agent_api.rs:1322-1330 | however ties are broken, the times shown are the same |
| UploadNames.SplitStemExt | agent/src/files_upload.rs:269-282 | stem and extension make up the name, the extension has no dot, and the stem is not empty |
| UploadNames.NextFreeSuffix | agent/src/files_upload.rs:229-265 | the least number whose candidate is accepted, with its name and a path that is relative, free of ".." and not taken; none exactly if all 999 are rejected |
| UploadNames.CandidateText | agent/src/files_upload.rs:237-282 | the number goes in front of the last dot; a dot at the very end is lost |
| UploadNames.CandidateWithoutExt | agent/src/files_upload.rs:237-282 | for names without a dot after their first character, and for "..", it goes at the end |
| UploadNames.CandidateClean | agent/src/files_upload.rs:229-265 | a clean name's candidates are valid names of one path segment, longer than the name |
| UploadNames.CandidatesDistinct | agent/src/files_upload.rs:237-241 | different numbers give different names |
| UploadNames.CandidatesCount | agent/src/files_upload.rs:236-241 | k numbers give k names |
| UploadNames.AcceptedIffFree | agent/src/files_upload.rs:242-262 | in a valid directory a candidate is rejected only because it exists: the two later checks never fail |
| UploadNames.JoinedPath | agent/src/files_upload.rs:247-251 | the candidate's path is the directory's, without slashes at its end, and the name as its last segment |
| UploadNames.TrimKeepsValid | agent/src/files.rs:45-61 | trimming slashes keeps a valid directory valid |
| UploadNames.SearchSucceeds | agent/src/files_upload.rs:229-265 | the search fails if and only if all 999 candidates exist, so never with fewer than 999 entries, or 1000 counting the name itself |
| UploadNames.SanitizeCleans | agent/src/files_upload.rs:285-295 | a sanitized name has no separator, NUL, line break or outer blank and is clean unless empty; a name like that is kept as it is |
| UploadNames.SanitizeTakesBase | agent/src/files_upload.rs:286-289 | of a path with separators of either kind only the last segment counts |
| UploadNames.ControlsOnly | agent/src/files_upload.rs:290-292 | NUL and line breaks are taken out wherever they are, and no other character |
| UploadNames.BlanksOnly | agent/src/files_upload.rs:293 | only blanks are trimmed, at the two ends |
| HttpRange.SplitOnce | agent/src/files.rs:676 | splits at the first dash, or there is none |
| HttpRange.Respond | agent/src/files.rs:619-634 | a partial answer has start <= end < total and length end - start + 1, in 64 bits |
| HttpRange.ApiFilesDownload | agent/src/files.rs:614-658 | the body is the whole file, nothing, or exactly the bytes of the range, of the announced length; an internal error exactly if the file cannot be opened or a satisfiable range not sought |
| HttpRange.IgnoredUnlessWellFormed | agent/src/files.rs:662-684 | for every header text, it is acted on if and only if it has one of the two forms with numbers that fit |
| HttpRange.ClosedRange | agent/src/files.rs:662-684 | a range with both ends is clipped to the file, or 416 if it starts past the end or ends before it starts |
| HttpRange.OpenRange | agent/src/files.rs:676-683 | an open range is the rest of the file |
| HttpRange.SuffixRange | agent/src/files.rs:668-675 | a suffix is the last bytes of the file, all of them if it is shorter |
| HttpRange.ChunkAnswer | agent/src/files.rs:619-634 | a chunk request is answered from where it asked, with 416 exactly at the end |
| HttpRange.WalkReassembles | agent/src/files.rs:619-684 | asking for chunks of any size until the 416 gives back exactly the file |
| Text.ParseDecimalInt | agent/src/auth.rs:33-52 | parsing a printed 64-bit number gives it back |
| Text.ParseDecimal | agent/src/files.rs:669-682 | the same for unsigned numbers |
| Text.ParseLoosely | agent/src/files.rs:669-682 | a plus sign and leading zeros are accepted and do not change the value |
| Text.DecimalInjective | agent/src/files_upload.rs:237-241 | different numbers print differently |
| Text.FieldsOfJoin | agent/src/auth.rs:43-49 | splitting at a separator takes off a field without it |
| Text.AfterLastOfJoin | agent/src/auth.rs:720 | the text after the last separator of a join is what was joined last |

## Left out

- Video, audio and capture internals, WebRTC signalling and payloaders: the encoder and the channel are oracles.
- The H.264 and VP9 pipelines, the tunnel supervisor and CORS capture: not part of this model.
- The storage engine: tables are maps and transactions are atomic; connections that fail to open are failures of the first statement.
- HMAC, Argon2 and random generation: idealised as said above.
- HTTP handlers around the modelled transactions (request shape, trimming and length checks of codes, the limiter's 429, cookies, events sent): they decide whether a transaction runs, not what it does.
- The settings table, the permanent key's own check (its answer is a parameter) and `auto_approve` (a parameter of the login).
- `insert_or_update_device`, which only tests call and which clears a revocation.
- Columns and statements that only touch labels, names, addresses, platforms and last-seen times.
- Lagging broadcast receivers: a subscriber that falls behind loses events, and the controller loses observations; runs are of what was received.
- The scaling of a decision to bits per second, telemetry, logging and the shutdown branches of the loops.
- `attach_abr_tx` and `subscribe_abr`: they change nothing that registration depends on.
- An upgrade that never completes after `register`: its session simply never ends, and keeps its entry until evicted or kicked.
- Dirty rectangles, the sequence-info message, frame counters, the sample queue and the writer task of the AV1 pipeline.
- Quality tiers, `scale_hidpi_bitrate`, codec selection, heartbeat and user-agent parsing: each is settled by reading one branch.
- How the rate-limit key is made from address and code: a key is any string here.
- UploadNames.NextFreeSuffix: a directory is the set of names that exist in it; symbolic links whose target is missing count as absent names do, and whether the directory lies in the workspace is a parameter.
- HttpRange.ApiFilesDownload: does not model a file that changes or fails while it is being read.
- KeyUsage.QueryRecentKeyUsage: does not model labels, addresses and platforms, which do not touch the order, nor rows that cannot be decoded.
- Events.AgreesExactly: the subscriber folds events as the bus mirrors them; what else the terminal dashboard's own `State::apply` does with an event is not part of this model.
- StatsAggregator.PickNearest: beyond half a million samples in one window only the bound of `PickNear` is stated.
