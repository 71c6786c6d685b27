# A model of the captive portal's stateful core

The portal stands between a Wi-Fi controller and an identity provider. Several portal processes may
share one database, and what they share, together with what each keeps for itself, has to stay right under
concurrent requests, a moving clock, timers and failing binds. This project models that core in Dafny and
proves what it promises, over every input, every run or every interleaving:

- **Guest codes** (`GuestCodes`, `GuestCodeConcurrency`, `GuestCodeQueries`): redemption as interleaved
  transactions of any number of processes, shown equivalent to redemptions one at a time; the SQL filters,
  the counters, the bulk delete and redemption agree on what "usable" means.
- **Rate limiting and bans** (`FailCounter`, `Eviction`, `SlidingWindow`, `IpBans`, `IpBanStaleness`,
  `IpBanOwner`, `Escalation`, `EscalationRuns`): a pruned, bounded counter that agrees with the full history; true sliding-window limits on
  top of it; a cached ban table with a staleness bound; an escalation history that survives sign-ins.
- **Commit-confirm listener changes** (`ListenerCommit`, `Listeners`, `TlsRollback`, `ConfirmedChanges`): the timer
  protocol with its late callbacks, the reconciler with its failing binds, the rollback through settings
  storage, configuration building and rebinding, and all of it as one system.
- **Single use and lockout** (`ExpiringStore`, `UsedStates`, `ProceedTokens`, `LocalAdmin`): the OIDC replay
  set against the cookie's lifetime, the proceed tokens, and the rate a lockout implies.
- **Settings and retention** (`Settings`, `Secrets`, `EventLog`): the round trip of a settings page over
  encrypted and plain rows, and batched pruning while others write.

How it is built. Time is a natural number of nanoseconds passed into each operation; where a function reads
the clock more than once it takes one argument per reading. A table is a map or a sequence and one SQL
statement is one step. Randomness, bind outcomes, the password check, the cipher and `hostFromURL` are
parameters. What the source updates in place is a class whose methods are proved against a specification
function or relation; the properties of whole runs are lemmas about those same functions and relations.

Where the code does not do all that its documentation says, the model follows the code and states exactly
when the promise holds:

- A callback of a stopped timer may already be waiting for the mutex; it then rolls a newer change back
  before its window is over (`ListenerCommit.WaitingCallbackMayRollBackEarly`,
  `ListenerCommit.EarlyRollbackIsReachable`).
- A callback takes its rollback under the mutex and runs it afterwards; a change begun and confirmed in between
  has its settings overwritten (`ListenerCommit.TakenRollbackMayOverwriteConfirmed`). And a risky change that
  supersedes an unconfirmed one is rolled back to the configuration nobody confirmed
  (`ConfirmedChanges.RollbackEndsAtAConfirmedChangeExactlyWhen`).
- `listenerRisky` compares the running configuration with the new one, not with what is bound. The two drift
  apart when a bind fails, and whenever a save of another section reloads what another process or the command
  line wrote to the shared table, since only a save of the TLS section applies it. Then the next save, of
  anything at all, moves or drops the live listener, or starts or retargets the redirect, with no rollback
  armed. The exact conditions are `Listeners.UnarmedSaveKeepsListenerExactlyWhen`,
  `Listeners.UnarmedSaveDropsListenerExactlyWhen` and `Listeners.UnarmedSaveRedirectsExactlyWhen`; the rows
  after them are such runs.
- A rollback restores the section, but an empty `tls.domain` follows the public URL, so the host may have
  moved (`TlsRollback.RollbackRestoresExactlyWhen`).
- A callback verifies the cookie at one clock reading and marks the state at a later one, and the cookie
  counts whole seconds: a state consumed before its session's first second has been over for the lag between
  the readings can be accepted twice, so one second is not enough (`UsedStates.EntryOutlastsCookieExactlyWhen`,
  `UsedStates.EarlyStateCanBeReplayed`, `UsedStates.OneSecondAloneIsTooEarly`). The set is per process: N
  processes accept a state up to N times (`UsedStates.FleetMayAcceptOncePerProcess`).
- A reload that selects before a ban and installs after it, or the late removal of an expired entry, erases a
  process's own ban from its cache for up to the TTL (`IpBanOwner.OwnBanIsLostExactlyWhen`,
  `IpBanOwner.OwnBanCanBeLost`). The late removal also breaks the TTL bound for bans by others
  (`IpBanStaleness.LateRemovalBreaksTheBound`).
- Two overlapping failures of one IP in one process can both ask before either bans, and count twice
  (`EscalationRuns.OverlappingFailuresCountTwice`).
- A ban is escalated by the count read back after its own upsert, so concurrent bans of the same IP may
  escalate it early (`EscalationRuns.BansEscalateExactlyWhen`).
- A counting window wider than the counter's `maxWindow` undercounts (`FailCounter.WiderWindowUndercounts`).
- A secret submitted as spaces is "blank" and keeps the stored value, but without a stored row the spaces
  are saved (`Settings.UntouchedFormIsIdentity`).
- A plaintext that starts with the encryption prefix does not survive storage, unless it is its own ciphertext
  (`Secrets.RoundTripExactlyWhen`).
- A successful sign-in lifts even a permanent ban; only the history count survives
  (`Escalation.Limiter.ClearSuccessfulAuth`, `EscalationRuns.HistoryNeverFalls`).

`dafny verify dfyconfig.toml` checks the whole project.

## Model

The first 117 rows, down to `EventLog.Prune`, are the main results; the next 59 are the operations they rest
on; the rest are the invariants and facts in between. Helper lemmas have no row.

| member | source | states |
|---|---|---|
| `GuestCodeConcurrency.FreshCodeAdmitsAtMostMaxUses` | portal/store_guestcode.go:461-505 | a limited code added fresh and never edited or deleted admits at most MaxUses devices, over every interleaving of every process |
| `GuestCodeConcurrency.GrantsWithinLimit` | portal/store_guestcode.go:461-505 | while a limited code is not edited or deleted, its row stays, its use count grows by exactly the devices admitted, and it never passes the limit (or what was already used) |
| `GuestCodeConcurrency.RunIsSerializable` | portal/store_guestcode.go:461-505 | replaying the commits of any interleaved run one at a time, in commit order between the same administrators' statements, grants each of them again and ends with the same two tables |
| `GuestCodeConcurrency.AttemptsAreAtomic` | portal/store_guestcode.go:461-505 | an attempt is granted exactly at its commit, and then the tables change as one indivisible redemption of a usable code would change them; any other statement, refusals included, changes no row |
| `GuestCodeConcurrency.RefusalsAreJustified` | portal/store_guestcode.go:469-483 | a refusal that is not a failure is one an indivisible redemption would give at that point too: unknown, expired or exhausted |
| `GuestCodeConcurrency.UsesKeepTheirCode` | portal/internal/dbstore/models.go:72 | in every reachable state every use row has its parent code, whatever was deleted |
| `GuestCodes.FreshCodeComesBack` | portal/store_guestcode.go:461-510 | what was put in comes out: redeeming a fresh code succeeds exactly when its record is active, and hands back every field as it was added with the one use |
| `GuestCodes.EditedCodeComesBack` | portal/store_guestcode.go:415-505 | after an edit the record redeemed has the edited expiry, duration, limit and note, its old history and the new use, and succeeds exactly when that record is active |
| `GuestCodes.SpellingIsForgiven` | portal/internal/dbstore/models.go:75-80 | either case and blanks around a code find the same code |
| `GuestCodeQueries.PurgeIsUnobservable` | portal/store_guestcode.go:434-446 | every later sequence of redemptions under a nondecreasing clock gets the same answers whether or not DeleteInactive ran |
| `GuestCodeQueries.PurgeKeepsExactlyTheUsable` | portal/store_guestcode.go:427-446 | DeleteInactive keeps a code if and only if it is usable, and a kept code keeps its whole history |
| `GuestCodeQueries.StatusesPartition` | portal/store_guestcode.go:150-164 | on any snapshot the expired, used and unused filters are disjoint and cover the table, so the difference Stats computes is never negative |
| `GuestCodeQueries.ActiveIsRedeemable` | portal/admin.go:49-83 | the unused filter, IsActive and a successful Validate select the same codes |
| `FailCounter.CountInMatchesHistory` | portal/ratelimit.go:105-120 | after any run of record, reset, sweep and eviction, countIn over any window up to maxWindow equals the count over the unpruned history since the key's last reset or eviction |
| `FailCounter.WiderWindowUndercounts` | portal/ratelimit.go:177-198 | for every wider window there is a run after which countIn is too low: the window condition is needed |
| `FailCounter.NeverDropped` | portal/ratelimit.go:53-60 | for a key never evicted that history is everything since its last reset |
| `FailCounter.RunStaysWithinCap` | portal/ratelimit.go:53-60 | no reachable counter has more than 100000 keys |
| `FailCounter.NothingDroppedBelowCap` | portal/ratelimit.go:53-60 | nobody is evicted below 100000 keys or by a key the counter holds |
| `FailCounter.EvictionLeavesNineTenths` | portal/ratelimit.go:95-101 | an eviction leaves nine tenths of the cap, and the new key |
| `FailCounter.DropsTheLongestQuiet` | portal/ratelimit.go:65-102 | no key dropped for capacity failed later than a key that stayed |
| `SlidingWindow.SlidingWindowBound` | portal/main.go:1214-1241 | every half-open interval of the window length, at every alignment, holds at most the limit of recorded attempts for one key since its last reset or eviction, plus one for each request of that key that may overtake another between check and record; sweeps and other keys may come in between freely |
| `SlidingWindow.DualWindowBound` | portal/main.go:808-811 | for one email the short limit holds in every short window and the long limit in every long window, at the same time, under the same terms |
| `SlidingWindow.InstancesMultiplyTheLimit` | portal/main.go:1214-1241 | N processes with a counter each admit at most N times as many |
| `IpBanStaleness.AnswerReflectsARecentRow` | portal/store_ipban.go:139-164 | in every run in which no process reloads between finding an expired entry and removing it, isBanned answers on any process what a version of the table in force within the last TTL says at that instant, give or take twice the time the halves of an operation lie apart |
| `IpBanStaleness.AtomicAnswerReflectsTTL` | portal/store_ipban.go:139-164 | in every run of atomic operations the bound is exactly TTL |
| `IpBanStaleness.LateRemovalBreaksTheBound` | portal/store_ipban.go:154-161 | the condition is needed: a run with no lag in which a removal after a reload drops a newer entry, and the process answers "not banned" although every version within the TTL bans the IP |
| `IpBanStaleness.ChangesPropagateWithinTTL` | portal/store_ipban.go:101-109 | in those runs, if every version within that time agrees about an IP, every process answers that |
| `IpBans.ReloadDisagreesExactlyAtExpiry` | portal/store_ipban.go:68-75 | cache and reload of the same rows disagree exactly at a ban's instant of expiry |
| `IpBans.CacheIsTrustedForTwoSeconds` | portal/store_ipban.go:101-109 | a cache is trusted for two seconds, to the nanosecond |
| `IpBans.BanExtends` | portal/store_ipban.go:111-137 | a ban only moves its IP's expiry forward and touches no other |
| `IpBanOwner.OwnBanTakesEffectAtOnce` | portal/store_ipban.go:111-137 | from the step that writes a ban into its issuer's cache, with nothing threatening in flight there, the ban is enforced at every instant, across reloads, until it expires or is lifted |
| `IpBanOwner.OwnBanIsLostExactlyWhen` | portal/store_ipban.go:68-99 | short of lifting, a step makes the issuer lose its ban if and only if it installs a reload that did not see the ban, or finishes a removal of that IP begun earlier |
| `IpBanOwner.OwnBanCanBeLost` | portal/store_ipban.go:68-99 | a run from a fresh deployment in which a reload that selected before a ban and installed after it erases it from its issuer's fresh cache |
| `IpBanOwner.OwnUnbanTakesEffectAtOnce` | portal/store_ipban.go:167-195 | from the step that takes a lifted ban out of its lifter's cache, with no earlier reload or ban in flight there, it stays out until a new ban |
| `IpBanOwner.OwnUnbanIsUndoneExactlyWhen` | portal/store_ipban.go:167-195 | short of a new ban, a lifted ban comes back if and only if such an operation finishes |
| `Escalation.FailuresDuringCooldownMoveNothing` | portal/main.go:997-1000 | while an IP is cooling down, no number of failures changes its count or its expiry or issues a cooldown, whatever happens to other IPs meanwhile; requests and reloads of the process are taken one at a time |
| `Escalation.CooldownLasts` | portal/main.go:1001-1019 | a cooldown below the threshold, or with escalation off, bans the IP in table and cache for the configured duration |
| `Escalation.CooldownEnds` | portal/main.go:1001-1019 | and no longer, if the IP had no ban before |
| `Escalation.EscalatedCooldownLasts` | portal/main.go:1008-1012 | from the threshold on the ban lasts until 2125, whenever it is issued |
| `Escalation.FailureTripsExactlyWhen` | portal/main.go:991-996 | a failure stays below the limit exactly when the IP's failures since its last reset or eviction, this one included, that lie within the window are fewer than the limit |
| `EscalationRuns.CountsDuringCooldownExactlyWhen` | portal/main.go:991-1021 | with any interleaving, a request of a process can be counted while that process's cache holds the ban if and only if it had asked before the ban was there |
| `EscalationRuns.OverlappingFailuresCountTwice` | portal/main.go:997-1008 | a run in which two overlapping failures of one IP count twice: the second is counted during the first one's cooldown |
| `EscalationRuns.HistoryCountsBans` | portal/main.go:991-1021 | over any interleaving of processes without an administrator's reset, an IP's history equals its bans issued plus those about to be issued, and every ban of ordinal N or later is permanent |
| `EscalationRuns.BansEscalateExactlyWhen` | portal/main.go:1008-1019 | with any number of processes a ban is permanent if and only if its ordinal plus the bans of the IP that overtook it between upsert and read-back reaches N |
| `EscalationRuns.SerialBansEscalateExactly` | portal/main.go:991-1021 | with one request at a time the k-th ban is permanent if and only if k >= N |
| `EscalationRuns.HistoryNeverFalls` | portal/main.go:963-984 | no step but an administrator's reset lowers a count; a successful sign-in does not |
| `EscalationRuns.BansShrinkExactlyWhen` | portal/store_ipban.go:111-137 | a ban gets shorter if and only if its IP signs in, an administrator resets it, or it had expired and is swept; a later short ban leaves the longer expiry |
| `ListenerCommit.FateIsFinal` | portal/tls.go:274-318 | over every interleaving, late callbacks included, a change that is confirmed, rolled back or superseded stays that |
| `ListenerCommit.RollbackRunsAtMostOnce` | portal/tls.go:274-318 | each rollback is taken and run at most once, and exactly for the changes whose fate is rolled back: never for a confirmed or superseded one |
| `ListenerCommit.UnconfirmedIsRolledBack` | portal/tls.go:284-303 | a change still pending when its own callback gets the mutex is rolled back: its rollback is taken then |
| `ListenerCommit.RollbackWaitsForItsWindow` | portal/tls.go:274-303 | if no earlier callback waits for the mutex when a change is begun, only its own timer can roll it back, and not before its deadline |
| `ListenerCommit.WaitingCallbackMayRollBackEarly` | portal/tls.go:277-293 | whenever an earlier callback is waiting, there is a continuation in which it rolls the new change back before its deadline: the condition is exact |
| `ListenerCommit.EarlyRollbackIsReachable` | portal/tls.go:274-293 | a run from the start in which the first change's fired timer rolls the second one back a whole window early |
| `ListenerCommit.ConfirmedSettingsSurvive` | portal/tls.go:284-303 | if no older rollback was taken and still to run when a change was begun, a confirmation leaves its settings in force |
| `ListenerCommit.TakenRollbackMayOverwriteConfirmed` | portal/tls.go:291-300 | whenever one is, the change can be confirmed and have its settings overwritten: the condition is exact |
| `ListenerCommit.OverwrittenConfirmationIsReachable` | portal/tls.go:284-303 | a run from the start in which that happens |
| `ConfirmedChanges.TlsRollbackRestoresTheOneBefore` | portal/listeners.go:253-278 | protocol and settings together: whatever was saved, superseded, confirmed or rolled back in between, running a change's rollback puts back the configuration, listener and redirect from just before that change |
| `ConfirmedChanges.RollbackEndsAtAConfirmedChangeExactlyWhen` | portal/tls.go:274-303 | a chain of unconfirmed changes ends at what the change before the last had made, and that had been confirmed if and only if nothing was pending when the last one began |
| `Listeners.RedirectOnlyWhileListening` | portal/listeners.go:84-109 | after any sequence of applies with any bind failures the redirect is installed only while an HTTPS listener is held |
| `Listeners.FailedApplyKeepsListener` | portal/listeners.go:116-160 | a failed apply leaves listener and address untouched, and fails only on a failed bind of a new address |
| `Listeners.SuccessForgetsHistory` | portal/listeners.go:84-109 | a successful apply ends where a fresh start with the same configuration would |
| `Listeners.LastConfigDecides` | portal/listeners.go:84-109 | two sequences whose last apply succeeded with the same configuration end alike |
| `Listeners.AppliedConfigIsServed` | portal/listeners.go:84-109 | a successful apply holds the configured address and redirects to the configured host exactly when asked to, or holds nothing as a proxy |
| `Listeners.StandaloneSaveArmsExactlyWhen` | portal/listeners.go:200-225 | from a standalone portal that serves its configuration, a save that binds is armed exactly when it moves the listener or redirects somewhere new; removing the redirect is not |
| `Listeners.LeavingStandaloneIsArmed` | portal/listeners.go:207-211 | leaving standalone mode is armed from whatever state |
| `Listeners.ProxySaveArmsExactlyWhen` | portal/listeners.go:207-225 | from proxy mode a save that could be applied is armed exactly when it asks for a redirect not asked for before |
| `Listeners.HarmlessSaveArmsNothing` | portal/listeners.go:200-225 | from whatever state, a save that changes neither mode nor address and starts or retargets no redirect arms nothing |
| `Listeners.RedirectGoesEvenIfTheBindFails` | portal/listeners.go:100-108 | switching the redirect off takes effect whether or not the bind works |
| `Listeners.UnarmedSaveKeepsListenerExactlyWhen` | portal/listeners.go:207-247 | whatever is bound and configured: with a standalone configuration, a save that arms nothing leaves the listener alone if and only if it is bound where the running configuration says, or the bind fails |
| `Listeners.UnarmedSaveDropsListenerExactlyWhen` | portal/listeners.go:207-247 | a save that arms nothing drops a held listener if and only if both configurations are proxy ones |
| `Listeners.UnarmedSaveRedirectsExactlyWhen` | portal/listeners.go:207-247 | a save that arms nothing redirects plain HTTP somewhere new if and only if it asks for that in standalone mode and HTTPS is held or can be bound; if it could be applied, the running configuration had the redirect already |
| `Listeners.AppliedConfigRedirectsExactlyWhen` | portal/listeners.go:207-247 | when the running configuration was the one applied last, an applied save that arms nothing starts a redirect if and only if nothing was held |
| `Listeners.UnarmedRedirectFromProxy` | portal/listeners.go:207-225 | such a run: from proxy to standalone with redirect_http already on |
| `Listeners.UnarmedRedirectAfterFailedStart` | portal/main.go:605-607 | such a run: the bind at startup failed, and saving an e-mail address starts listener and redirect |
| `Listeners.UnarmedRedirectByFailedSave` | portal/listeners.go:100-108 | such a run: a risky save whose bind fails starts the redirect all the same |
| `Listeners.UnarmedMoveAfterFailedSave` | portal/listeners.go:233-247 | a run in which a save to a new address fails to bind and the next save, of an e-mail address, moves the live listener there |
| `Listeners.UnarmedDropAfterReload` | portal/runtime.go:36-95 | a run in which another section's save reloads proxy mode from the shared table and the next save, of an e-mail address, drops the held listener |
| `Listeners.UnarmedRedirectAfterReload` | portal/runtime.go:36-95 | the same with redirect_http: the next save starts the redirect beside a held listener |
| `Listeners.UnarmedRedirectAfterPublicURL` | portal/config_settings.go:290-296 | the same with the certificate host: the next save retargets the redirect |
| `TlsRollback.UnconfirmedSaveIsUndone` | portal/listeners.go:233-278 | save a risky TLS change, leave it unconfirmed, run the armed rollback: if it binds, configuration, listener and redirect are those before the save, also for keys that never had a row |
| `TlsRollback.RollbackRestoresExactlyWhen` | portal/listeners.go:253-278 | whatever happened in between, a rollback that binds restores the configuration if and only if tls.domain was set or the public URL still names the same host; then listener and redirect are restored too |
| `TlsRollback.SavedFormTakesEffect` | portal/config_settings.go:284-296 | saving the TLS form puts mode, address, redirect and host in force as submitted, defaults for the emptied, and leaves the others as they were |
| `TlsRollback.TextFieldsTakeEffect` | portal/config_settings.go:284-296 | each text field of the configuration is read from its own key |
| `TlsRollback.SwitchesTakeEffect` | portal/config_settings.go:286-289 | each switch of the configuration is read from its own key |
| `TlsRollback.TrailingSlashesDoNotMatter` | portal/config_settings.go:251-251 | slashes at the end of the public URL do not matter |
| `TlsRollback.NoRowsMeansProxy` | portal/config_settings.go:150-161 | a table without TLS rows is a proxy with the registry's defaults and the public URL's host |
| `TlsRollback.TurningRedirectOnIsArmed` | portal/listeners.go:207-278 | switching redirect_http on is armed from every readable state with the redirect off, when the bind works: the restore values are the old section over the defaults |
| `LocalAdmin.LockoutBoundsGuessing` | portal/localadmin.go:173-215 | for serialised requests without a success, any half-open interval of length T holds at most 10 * (T / 15 min + 1) failed verifications |
| `LocalAdmin.NoOneGetsInDuringLockout` | portal/localadmin.go:188-190 | for fifteen minutes after a batch's tenth failure nobody gets in, not even with the right password, and nothing is counted |
| `LocalAdmin.LockoutEnds` | portal/localadmin.go:188-215 | after that the right password gets in |
| `LocalAdmin.TheTenthFailureLocks` | portal/localadmin.go:192-199 | a wrong password locks for fifteen minutes exactly when it is the tenth; otherwise it only counts |
| `LocalAdmin.GrantedExactlyWhen` | portal/localadmin.go:173-215 | an attempt is granted exactly when the account is enabled, the password right and no lockout running; refusals before the password change nothing |
| `LocalAdmin.SuccessRestartsTheCount` | portal/localadmin.go:208-214 | a success restarts the count and ends the lockout |
| `LocalAdmin.CounterStaysBelowThreshold` | portal/localadmin.go:173-215 | every row the code writes has a counter below ten, so the bound applies to every account |
| `UsedStates.ConsumedStateIsNotReplayed` | portal/main.go:1040-1066 | a state consumed once the second of its session's creation has been over for the lag between the callback's two clock readings is never accepted again by that process from a cookie carrying it, unless dropped for capacity |
| `UsedStates.EntryOutlastsCookieExactlyWhen` | portal/session.go:61 | the set entry outlasts every callback the cookie can reach if and only if the state was consumed that late |
| `UsedStates.EarlyStateCanBeReplayed` | portal/session.go:126 | for every state consumed earlier there is a run that accepts it twice, the second time from a cookie that verified |
| `UsedStates.OneSecondAndLagIsLateEnough` | portal/session.go:61 | one second and the lag after creation is always late enough |
| `UsedStates.OneSecondAloneIsTooEarly` | portal/main.go:1042-1062 | one second alone is not: a run that accepts a state twice with one nanosecond between the two readings |
| `UsedStates.FleetAcceptsOncePerProcess` | portal/ratelimit.go:219-262 | the set is per process, so N processes accept such a state at most N times |
| `UsedStates.FleetMayAcceptOncePerProcess` | portal/ratelimit.go:219-262 | for every N there are N processes that do |
| `UsedStates.UnusedStateIsAccepted` | portal/ratelimit.go:227-262 | a nonblank state not accepted within the last ttl is accepted |
| `UsedStates.SetStaysWithinCap` | portal/ratelimit.go:227-262 | no reachable set exceeds 50000 states |
| `ProceedTokens.TokenIsSingleUse` | portal/auth_proceed.go:100-112 | over every run each token yields its entry at most once |
| `ProceedTokens.TakeYieldsWhatWasPut` | portal/auth_proceed.go:100-112 | a take that yields gives the very entry put under that token, not after its expiry, with no take of it in between |
| `ProceedTokens.LiveTokenIsHonoured` | portal/auth_proceed.go:60-112 | the first take of a token no later than its expiry yields its entry, unless it was dropped for capacity |
| `ProceedTokens.StoreStaysWithinCap` | portal/auth_proceed.go:60-97 | no reachable store exceeds 50000 tokens |
| `ProceedTokens.PutDropsEarliest` | portal/auth_proceed.go:73-87 | a token dropped for capacity would not have outlived one that stayed |
| `Settings.UntouchedFormIsIdentity` | portal/internal/settings/settings.go:82-198 | load, fill defaults, redact, resubmit with blank secrets, merge, save, reload ends at the same filled values, with or without a key and over mixed rows, if and only if no secret without a row was sent as other than its default |
| `Settings.SavedSecretIsSealed` | portal/internal/settings/settings.go:110-154 | after a save under a key every secret that is not empty is stored sealed |
| `Settings.SealedSectionNeedsTheKey` | portal/internal/settings/settings.go:82-106 | so the section cannot be loaded without the key |
| `Settings.PageRevealsNoSecret` | portal/internal/settings/settings.go:168-182 | a settings page does not depend on what a stored credential is, only on whether there is one |
| `Settings.SubmittedFormTakesEffect` | portal/admin_settings.go:191-222 | read back after a save: a blank secret keeps the old one, every other known field is as submitted, fields not submitted stay, unknown keys leave no trace |
| `Settings.PageShowsStoredOrDefault` | portal/admin_settings.go:148-162 | a page shows what is stored, and the default for what is not |
| `Secrets.StoredSecretNeedsTheKey` | portal/internal/secret/secret.go:94-133 | an encrypted credential starts with the prefix and cannot be decrypted without a key |
| `Secrets.RoundTripExactlyWhen` | portal/internal/secret/secret.go:94-155 | decrypting what was encrypted gives it back if and only if it does not start with the prefix, or is its own ciphertext under the key |
| `EventLog.Prune` | portal/store_eventlog.go:159-194 | whatever others append or delete between statements: every event that was ever there keeps its time, only events before the cutoff are removed, each of them there before or arrived meanwhile, the answer is exactly how many, every event is in exactly one of the table, what the call removed and what others did, and none older is left when none arrive and at most 5000 * 1000 were expired |
| `GuestCodes.Store.Validate` | portal/store_guestcode.go:461-510 | returns and stores what the indivisible redemption gives for every code, blank, unknown, expired and exhausted included |
| `GuestCodes.Store.Add` | portal/store_guestcode.go:288-303 | inserts unless the spelling is blank or taken |
| `GuestCodes.Store.InsertCode` | portal/store_guestcode.go:311-335 | one code with the history it brings, re-keyed to the inserted row; a taken spelling inserts nothing |
| `GuestCodes.Store.AddMany` | portal/store_guestcode.go:346-377 | the whole batch equals offering the codes one after another; the answer lists those that landed |
| `GuestCodes.Store.Edit` | portal/store_guestcode.go:415-425 | replaces expiry, duration, limit and note of an existing code and nothing else; a zero expiry becomes "never"; the answer counts matched or only changed rows, as the backend does |
| `GuestCodes.Store.Delete` | portal/store_guestcode.go:379-390 | removes the code with its uses; reports whether there was one |
| `GuestCodes.Store.DeleteInactive` | portal/store_guestcode.go:434-446 | removes exactly the expired or exhausted codes and counts the rows removed |
| `GuestCodeQueries.Stats` | portal/store_guestcode.go:521-550 | the four counters are the table size and the sizes of the three filters; the clamp never fires |
| `GuestCodeQueries.ActiveCount` | portal/store_guestcode.go:231-239 | equals the number of codes IsActive accepts and the number Validate would redeem |
| `FailCounter.Counter.Record` | portal/ratelimit.go:53-60 | room is made exactly when a new key meets a full counter, then one time is appended; which keys capacity removed is exposed |
| `FailCounter.Counter.EvictOldest` | portal/ratelimit.go:65-102 | prune first; if still full keep the nine tenths of keys that failed most recently |
| `FailCounter.Counter.Prune` | portal/ratelimit.go:66-79 | each key keeps exactly its times after the cutoff, and goes when none is left |
| `FailCounter.Counter.Collect` | portal/ratelimit.go:177-198 | the sweep is that prune at maxWindow |
| `FailCounter.Counter.CountIn` | portal/ratelimit.go:105-120 | the number of times strictly inside the window, zero for an unknown key |
| `FailCounter.Counter.Reset` | portal/ratelimit.go:122-126 | forgets one key only |
| `FailCounter.Counter.ResetAll` | portal/ratelimit.go:129-135 | forgets every key and reports how many there were |
| `Eviction.KeepLatest` | portal/ratelimit.go:95-101 | deleting from the front of the sorted keys leaves exactly the target number, and nothing dropped ranks above anything kept |
| `Eviction.SortByRank` | portal/ratelimit.go:95-95 | every key exactly once, in nondecreasing rank |
| `UsedStates.StateSet.MarkUsed` | portal/ratelimit.go:227-262 | accepts exactly nonblank states not marked within ttl; a refusal changes nothing |
| `UsedStates.StateSet.Collect` | portal/ratelimit.go:265-278 | keeps exactly the unexpired states |
| `SlidingWindow.GuestCodeAttempt` | portal/main.go:1214-1241 | limited exactly when the trailing count reached the limit (then nothing is recorded); a refused code is recorded; a grant resets the MAC |
| `SlidingWindow.AuthStart` | portal/main.go:808-889 | limited exactly when either window is full (then nothing is recorded); otherwise one attempt is recorded |
| `IpBans.BanList.Refresh` | portal/store_ipban.go:68-98 | loads all active rows, or the 50000 that last longest |
| `IpBans.BanList.Ban` | portal/store_ipban.go:111-137 | table and cache move the expiry forward only; a blank IP does nothing |
| `IpBans.BanList.ExpiryOf` | portal/store_ipban.go:146-164 | reloads when older than TTL, answers from the cache, drops an entry found expired |
| `IpBans.BanList.Unban` | portal/store_ipban.go:167-177 | removes the IP from table and cache; reports whether either had it |
| `IpBans.BanList.UnbanAll` | portal/store_ipban.go:180-197 | empties table and cache; reports how many were active |
| `IpBans.BanList.Sweep` | portal/store_ipban.go:224-233 | expired rows leave the table, then the cache is reloaded |
| `Escalation.BanHistory.Increment` | portal/store_policy.go:171-191 | adds one for the IP and returns its new total; nothing for a blank IP |
| `Escalation.BanHistory.Get` | portal/store_policy.go:194-206 | the stored total, zero when there is none |
| `Escalation.BanHistory.Reset` | portal/store_policy.go:209-216 | forgets one IP |
| `Escalation.Limiter.RecordIPFailure` | portal/main.go:991-1021 | the failure is always recorded; below the limit nothing else happens; otherwise one ban is issued if and only if the cache, reloaded when stale, holds no unexpired ban |
| `Escalation.Limiter.IssueCooldown` | portal/main.go:1001-1020 | history up by one, table and cache extended to the short or permanent expiry the new count calls for; with escalation off the history is not kept |
| `Escalation.Limiter.ClearSuccessfulAuth` | portal/main.go:976-983 | failures and bans of the request's addresses go, even permanent ones; the history is not in its frame |
| `Escalation.UniqueNonEmpty` | portal/main.go:927-946 | exactly the nonblank trimmed values, each once |
| `ListenerCommit.Guard.Begin` | portal/tls.go:274-304 | arms the change and its deadline and names the timer told to stop |
| `ListenerCommit.Guard.Callback` | portal/tls.go:284-293 | runs the stored rollback exactly when something is pending |
| `ListenerCommit.Guard.Confirm` | portal/tls.go:306-318 | succeeds exactly when something is pending, and then disarms |
| `Listeners.Manager.ApplyConfig` | portal/listeners.go:84-109 | fields and error equal the reconciler function, for every configuration and bind outcome |
| `Listeners.Manager.StartTLS` | portal/listeners.go:120-160 | bind first: on failure nothing moved |
| `Listeners.Manager.StopTLS` | portal/listeners.go:162-177 | releases the listener |
| `TlsRollback.Portal.Reload` | portal/runtime.go:36-95 | rebuilds the TLS configuration from the table, or keeps it when the table cannot be read |
| `TlsRollback.Portal.SaveSection` | portal/admin_settings.go:191-275 | filter, load, merge, save, reload, apply, in that order; armed exactly when risky and applied |
| `TlsRollback.Portal.ApplyListenerChange` | portal/listeners.go:233-278 | reconciles with the current configuration; restore values are armed exactly when the change is risky and the apply succeeded |
| `TlsRollback.Portal.RollBack` | portal/listeners.go:263-275 | save, reload, apply |
| `LocalAdmin.AccountRow.Authenticate` | portal/localadmin.go:173-215 | disabled, locked, wrong and right password: outcome and row; granted exactly when enabled, right and not locked |
| `ExpiringStore.MakeRoom` | portal/auth_proceed.go:66-88 | below the cap everything stays; else the live entries; else the nine tenths that expire last |
| `ExpiringStore.DropExpired` | portal/auth_proceed.go:117-127 | exactly the entries not past their expiry |
| `ProceedTokens.TokenStore.Put` | portal/auth_proceed.go:60-97 | room first, then the new entry with its expiry |
| `ProceedTokens.TokenStore.TakeToken` | portal/auth_proceed.go:100-112 | the token is consumed whatever it yields |
| `ProceedTokens.TokenStore.Collect` | portal/auth_proceed.go:115-128 | keeps exactly the unexpired tokens |
| `ProceedTokens.TokenStore.Proceed` | portal/auth_proceed.go:132-164 | redirects only to the stored URL, before expiry, when the stored session state is the caller's; any attempt consumes the token |
| `Settings.Store.LoadSection` | portal/internal/settings/settings.go:82-106 | all values decrypted, or nothing when one secret cannot be |
| `Settings.Store.Save` | portal/internal/settings/settings.go:110-154 | upserts each value, secrets encrypted; unmentioned keys stay; an empty form writes nothing |
| `Settings.Store.Redact` | portal/internal/settings/settings.go:168-182 | visible fields, and for each secret only whether it is set |
| `Settings.Store.ApplySecretUpdates` | portal/internal/settings/settings.go:186-204 | a blank secret keeps the stored value if there is one |
| `EventLog.PruneBatch` | portal/store_eventlog.go:163-187 | one round: what it removes, counts and leaves, with others acting before the select and before the delete |
| `EventLog.SelectBatch` | portal/store_eventlog.go:168-175 | the 5000 smallest keys of expired events, in order |
| `EventLog.EventTable.Append` | portal/store_eventlog.go:48-59 | a fresh key; an event without a time gets the current one |
| `GuestCodeConcurrency.StepKeepsInv` | portal/store_guestcode.go:461-505 | every statement of every process keeps: valid tables, each open transaction's row and count still what it read, no two open transactions on one row (on SQLite: only one) |
| `GuestCodeConcurrency.RestIsSound` | portal/store_guestcode.go:42-46 | any valid tables with no attempt in progress satisfy that invariant |
| `GuestCodeConcurrency.AdminStepsTakeEffect` | portal/store_guestcode.go:288-425 | an administrator's statement does what it says to its codes and keeps its hands off every other |
| `GuestCodes.RedemptionHandsBackTheRecord` | portal/store_guestcode.go:461-505 | a redemption succeeds exactly on an active record and hands it back with the new use added |
| `GuestCodes.AddedCodeLoadsAsAdded` | portal/store_guestcode.go:311-335 | an added code loads as it was added, with its history |
| `GuestCodes.CountUsesCounts` | portal/store_guestcode.go:479-482 | the use count is the number of use rows naming the code |
| `GuestCodes.AddAllOverwritesNothing` | portal/store_guestcode.go:346-377 | a batch leaves existing codes as they were, and every nonblank spelling offered exists afterwards |
| `GuestCodes.AddAllReportsWhatLanded` | portal/store_guestcode.go:337-345 | every code reported is new, stored as offered and listed once: none belongs to someone else |
| `GuestCodes.AddAllAddsNothingElse` | portal/store_guestcode.go:346-377 | every code that appears was reported |
| `GuestCodes.RemoveKeepsValid` | portal/internal/dbstore/models.go:72 | a cascading delete orphans no use |
| `GuestCodes.RemoveKeepsOthers` | portal/store_guestcode.go:379-410 | deleting codes disturbs no other code's row, history or count |
| `GuestCodes.InsertKeepsOthers` | portal/store_guestcode.go:311-335 | a new code starts with exactly the history it brought and leaves every other count alone |
| `GuestCodeQueries.CodeIsActive` | portal/admin.go:49-83 | for each code: IsActive, the unused filter and usable agree, and DeleteInactive's condition is their negation |
| `GuestCodeQueries.DeadStaysDead` | portal/store_guestcode.go:461-505 | an expired or exhausted code stays unusable as time passes and codes are redeemed |
| `FailCounter.CountAfterCounts` | portal/ratelimit.go:112-119 | the count is the number of positions with a later time |
| `FailCounter.KeepsExactlyTheLater` | portal/ratelimit.go:70-75 | a prune keeps the times after the cutoff, all of them and no others |
| `FailCounter.RunIsExact` | portal/ratelimit.go:53-126 | counts no older than maxWindow agree with the history in every reachable state |
| `UsedStates.AcceptedOncePerTtl` | portal/ratelimit.go:227-262 | unless dropped for capacity a state is accepted at most once per ttl |
| `SlidingWindow.CountWithinCounts` | portal/main.go:1214-1216 | the count in an interval is the number of positions with a time in it |
| `SlidingWindow.AdmitKeepsBound` | portal/main.go:1216-1216 | admitting one attempt when the trailing count is below the bound keeps the bound at every alignment |
| `SlidingWindow.CheckBoundsHistory` | portal/main.go:1214-1241 | what a check saw bounds the history at the later record by the key's own records in between |
| `IpBanStaleness.StepKeepsInv` | portal/store_ipban.go:68-233 | every half of every operation of every process keeps: each cached expiry lies between expiries its row had within the lag before that process's last reload; only a removal after a reload that drops a live entry may break it |
| `IpBanStaleness.StartIsSound` | portal/store_ipban.go:61-65 | a fresh deployment satisfies it, whatever the table holds |
| `IpBanStaleness.RefreshedNeverFalls` | portal/store_ipban.go:101-109 | no step lowers a process's reload stamp, so an earlier staleness check stays valid |
| `Escalation.IssuingStartsCooling` | portal/main.go:1008-1020 | the process that issues a ban has the IP cooling down in table and cache |
| `EscalationRuns.StepKeepsInv` | portal/main.go:991-1021 | each step keeps the balance of history, issued and in-flight bans and the permanence of escalated ones |
| `EscalationRuns.EscalatedIsPermanent` | portal/main.go:1009-1012 | the computed expiry of an escalated ban is never before the permanent marker, however late ban reads the clock |
| `ListenerCommit.StepKeepsInv` | portal/tls.go:274-318 | every step keeps: only the newest change can be pending, the stored closure is its own, a rollback ran exactly for rolled-back changes |
| `TlsRollback.RestoreReadsAsBefore` | portal/listeners.go:253-261 | the restore values over any later section read, field by field, as the section they were taken from |
| `TlsRollback.TlsSaveIsPlain` | portal/internal/settings/settings.go:110-154 | TLS values come out of the table as they went in, and no other section moves |
| `LocalAdmin.RunIsPaced` | portal/localadmin.go:173-215 | failures come in order with a 15-minute pause after every tenth, and the row knows where the batch stands |
| `LocalAdmin.FailuresCount` | portal/localadmin.go:191-205 | the failures of a run are the requests answered "wrong password" |
| `LocalAdmin.CountInCounts` | portal/localadmin.go:64-67 | the count in an interval is the number of positions with a time in it |
| `LocalAdmin.TenTakeALockout` | portal/localadmin.go:64-67 | each failure is followed by the tenth after it no sooner than one lockout later |
| `ExpiringStore.NothingDroppedBelowCap` | portal/auth_proceed.go:66-73 | nothing live is dropped below 50000 entries, or below that once the expired are gone |
| `ExpiringStore.DroppingLeavesNineTenths` | portal/auth_proceed.go:82-87 | dropping for capacity leaves nine tenths |
| `ExpiringStore.EarliestExpiriesGoFirst` | portal/auth_proceed.go:73-87 | no live entry dropped would have outlived one that was kept |
| `ProceedTokens.HoldsOutstanding` | portal/auth_proceed.go:60-128 | the store only holds what was put and not taken since |
| `Settings.SaveThenLoad` | portal/internal/settings/settings.go:82-154 | a reload after a save is the old values overlaid with the saved ones |
| `Settings.BlankIsNotPrefixed` | portal/internal/settings/settings.go:186-204 | a blank value never looks encrypted |
| `Secrets.EncryptIsIdempotent` | portal/internal/secret/secret.go:94-118 | encrypting an encrypted value changes nothing |

## Left out

- OIDC, Duo and ACME clients, the HTTP handlers around the modelled rules, cookies' signatures, the frontend, HTML and CSV rendering, the command line, migration and legacy import: network calls, presentation or plumbing.
- Cryptography: argon2id, AES-GCM, HMAC and base64 are parameters; of the cipher only "open undoes seal under the same key" is used.
- Database errors that are logged and answered with a fallback: queries succeed. `Abort` in the redemption protocol covers a failed or lost transaction; `Store.LoadSection` and `Portal.Reload` cover undecryptable rows.
- The order of a code's history: `ORDER BY at` is not modelled, uses are listed in insertion order. The default for an empty creation time (`BeforeSave`) is not modelled either.
- Case folding outside ASCII: `ToLower` leaves other letters alone.
- `GuestCode.Status` (portal/admin.go:67): it calls a code "used" after any use, while the SQL filter of that name means exhausted and not expired; only the SQL meaning is modelled.
- Listing, paging and snapshots of codes, bans and counters for the admin pages: read-only views.
- DeleteMany (portal/store_guestcode.go:393-410): in the interleaved system it is `AdminDelete` of a set of keys.
- LoadAll: it is the specification function `TlsRollback.Snapshot` per section, not a loop of its own.
- Certificates: which one is served is not part of the listener state, since it is reloaded only when a listener is bound; nor are connection draining and shutdown.
- SlidingWindow.SlidingWindowBound: the configured window and limit do not change during a run.
- LocalAdmin.LockoutBoundsGuessing: requests on the account are serialised; concurrent logins may read the same row. Unknown user names and a password reset from the command line are not modelled.
- TlsRollback.UnconfirmedSaveIsUndone: no other save runs between the save and its rollback and the public URL stays; `TlsRollback.RollbackRestoresExactlyWhen` drops both assumptions.
- IpBanStaleness.AnswerReflectsARecentRow: the halves of an operation lie at most `lag` apart, so the bound is TTL plus twice that; the instant at which a row expires is excluded, since a reload drops the row then and the cache still honours it; runs in which a process reloads between finding an expired entry and removing it are outside the bound.
- Escalation.FailuresDuringCooldownMoveNothing: requests and reloads of the process are indivisible events, and it is about the process that holds the ban in its cache; another one may issue a second cooldown until its cache is reloaded. `EscalationRuns.CountsDuringCooldownExactlyWhen` drops the first assumption.
- ListenerCommit.ConfirmedSettingsSurvive: a save and the arming of its rollback are one step, so a rollback that runs between the two is not modelled.
- ConfirmedChanges.TlsRollbackRestoresTheOneBefore: between the steps of the protocol nobody else writes the table, the start is a settled portal, and the rollback's bind works.
- EventLog.Prune: a failing query, which ends the sweep early, is not modelled.
- MAC denylist, iKuai policies and URL building, email syntax, origin checks: each is settled by reading one branch.
