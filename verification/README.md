# Verified models of the trading monitor's core protocols

Each module models one component of the repository as it is written: the same branches, constants
and error paths. Objects that the source updates in place are classes whose methods are proved
against a pure step function; the results about whole runs are lemmas about that function, for every
sequence of events, every interleaving and, where the source says nothing about clocks, every clock.

| modules | component |
|---|---|
| CacheCensus | the budgeted memory walk over a cyclic object graph |
| Totp, Auth, AuthAnswers, AuthRuns, AuthLocks, AuthSessions | one-time codes, and the login store over its tables |
| RateWindow, GcPause, LoopStall | the sliding-window limiter that three components share, two of its users |
| GcTuning | leases on the garbage collector's settings |
| MarketIdentity, MarketIdentityRepository, MarketWrites, MarketRuns, MarketFingerprints, MarketIncidents | market keys, and the registry with its three writers |
| Coins, HyperliquidBbo, BboRuns | the best-bid-offer stream: quote cache, subscriptions, message counter |
| MinuteSignal, SignalRuns | the minute signal engine and its traces |
| GateTwap | the sliced position reducer |
| AlertRound, AlertStore, AlertResults, AlertDelivery, AlertTraces | concurrent alert rounds, and delivery with crash recovery |
| BackupRetention | which backups are kept |
| HistoryStats | percentiles and row sampling |
| Wrappers, Sets | options and results, the size of a subset |

`dafny verify dfyconfig.toml` checks everything.

Some promises of the source do not hold on every input. They are kept as the code has them, each with
the exact condition under which it holds, and with inputs that break it where there are any to name:

- A stored market key is validated again when it is read. A Hyperliquid symbol with a blank before its
  colon is accepted once and rejected ever after (`MarketIdentity.KeyRoundTrip`, `BlankBeforeColon`).
- A catalog batch keeps the fingerprint of a row that is not pending, whatever the row and the time,
  exactly when no pending item is followed, for its key, by one with another fingerprint after only
  verified and pending items that agree with it (`MarketFingerprints.SafeIffKept`, `ClashChanges`). Both
  callers import verified items only, which is enough (`VerifiedKeepsFingerprint`). One item changes a
  fingerprint exactly when the row is pending, the catalog may write it and the item's differs
  (`ItemKeepsFingerprint`, `PendingItemOpensTheDoor`).
- The last order of a schedule leaves nothing tradable, from every start, exactly when the minimum is a
  positive whole number of steps (`GateTwap.NothingLeftIffWholeMinimum`), which the digits of the payload
  show (`MinimumInSteps`); whole units with a minimum of 0.5 break it (`FractionalMinimumCanLeaveMore`).
- A recovered alert key names its rule again exactly when the rule id has no colon
  (`AlertStore.KeyReadsBack`).
- A send can end without event, pending mark or delivery in flight. `AlertTraces.NoSendIsForgotten` names
  the losing steps exactly: a crash or a failing event write after the result was written, and a later
  delivery overwriting a mark whose event was never written. There is a run for each:
  `CrashBeforeTheEventLoses`, where every write succeeds, `FailingEventLoses`, `TwoFailingWritesLose` and
  `FailingRecoveryLoses`. A run without failing event writes and without a crash between a delivery's last
  two writes loses nothing (`HarmlessRunsLoseNothing`).
- The sampling hash of the census mixes nothing: it looks at four address bits
  (`CacheCensus.SelectedIsAddressBits`).
- An entry on the bar that expires a shock reports that it came from the idle state
  (`SignalRuns.EntryOnExpiryBar`).

## Model

| member | source | states |
|---|---|---|
| CacheCensus.RunCensus | backend/app/runtime/cache_census.py:185-246 | However the walk is cut short, the rows count each visited object once, at most `max_objects` in all; sizes sum to at least the shallow sizes, exactly without sampling. Up to the first truncated row, each row is charged exactly what its target is the first to reach. Every row has its causes: it is truncated only by a late clock reading, a full visited set, a getter that raises or an object that cannot be measured, and by each of these that occurs. A census on time, with room for everything and nothing that raises, visits exactly everything reachable, without an error. Skipped exactly below the headroom. |
| CacheCensus.MeasureTarget | backend/app/runtime/cache_census.py:202-235 | One target's row: it counts the newly visited objects, all reachable from the target; missing, truncated, failed, sampled and the number of entries are exactly as the clock, the getter and the objects met make them; and a row that nothing cut short holds everything the target reaches, its size that of the order of discovery. |
| CacheCensus.Walk.Measure | backend/app/runtime/cache_census.py:110-156 | The walk terminates on any cyclic graph within its budget and charges each new object once. Unless cut short it leaves no followed edge of a new object unexplored, each object was found as the root or among the followed children of an earlier one, which passes on its weight, times all to chosen entries if it was sampled, and the size is the sum of the shallow sizes times these weights. |
| CacheCensus.Walk.SampledChildren | backend/app/runtime/cache_census.py:84-107 | The sample is the selected ones of the entries scanned, or the first when a full scan selects none, weighted by the ratio of all to chosen, which is at least one; only a deadline, which truncates, cuts the scan short, and an error of the iteration is raised. |
| CacheCensus.SelectedIsAddressBits | backend/app/runtime/cache_census.py:100-101 | The multiplicative hash selects exactly the objects whose address bits 4 to 7 are zero. |
| CacheCensus.SelectedOfIsFilter | backend/app/runtime/cache_census.py:91-104 | An entry of a large container is sampled exactly when bits 4 to 7 of its address are zero. |
| CacheCensus.CleanWalkReachesAll | backend/app/runtime/cache_census.py:110-156 | From a closed visited set, a walk that nothing cuts short adds exactly what paths of followed edges from the root reach: all children of an object, or the sample of a large container. |
| CacheCensus.ReachSetIsLeast | backend/app/runtime/cache_census.py:58-83 | What the followed edges reach lies in every set around the root that no edge leaves, and without a large container it is the least such set. |
| CacheCensus.ShareOfRow | backend/app/runtime/cache_census.py:198-235 | While no row up to a target's is truncated, its row counts the objects that no earlier target reaches, and sums their sizes unless it is sampled. |
| CacheCensus.ClosedHoldsReachable | backend/app/runtime/cache_census.py:110-156 | A set closed under children holds everything its members reach. |
| RateWindow.ExpireIsYounger | backend/app/runtime/gc_pause.py:69-79 | On times in order, popping the expired prefix is the same as filtering by age. |
| RateWindow.AdmissionsAreSpaced | backend/app/runtime/gc_pause.py:69-79 | Any limit+1 consecutive admissions span at least the window. |
| RateWindow.RefusedOnlyWhenFull | backend/app/runtime/gc_pause.py:69-79 | An attempt is refused exactly when the trailing window already holds the limit of admissions; refusals do not count. |
| RateWindow.EveryWindowIsBounded | backend/app/runtime/loop_stall_watchdog.py:174-181 | Every window of that length, wherever it starts, holds at most the limit of admissions. |
| GcPause.GcPauseMonitor.Callback | backend/app/runtime/gc_pause.py:48-66 | A stop after a start of the same generation adds its pause to the total, counts a full collection, and queues the pause if it is slow; the queue is the latest five slow pauses since the last flush. |
| GcPause.NotificationDecides | backend/app/runtime/gc_pause.py:48-66 | In any run, a notification is accounted exactly when it ends a running collection of its generation, with the milliseconds since that one's own start; exactly the slow ones join the queue, which keeps the last five. |
| GcPause.GcPauseMonitor.Flush | backend/app/runtime/gc_pause.py:69-85 | The queue is taken pause by pause; a line is reserved for each that the limiter admits, even if its write fails, and these are the lines returned. |
| GcPause.TakeDecides | backend/app/runtime/gc_pause.py:69-85 | The flush takes the oldest pause and offers the limiter one line for it. |
| GcPause.FiveLinesAMinute | backend/app/runtime/gc_pause.py:48-85 | Over any run of notifications and takes from the queue, interleaved anyhow, the lines are exactly the limiter's admissions, and no 60 seconds hold more than five. |
| LoopStall.LoopStallWatchdog.Check | backend/app/runtime/loop_stall_watchdog.py:120-149 | One look closes a stall whose beat has passed and offers its line, logged exactly when the limiter admits it and the handler works; it opens a stall past the threshold, and samples within budget and schedule. |
| LoopStall.LoopStallWatchdog.Emit | backend/app/runtime/loop_stall_watchdog.py:174-181 | A line is reserved exactly when the limiter has a slot, before the write. |
| LoopStall.StallsAreReal | backend/app/runtime/loop_stall_watchdog.py:120-149 | In any interleaving of beats and checks, every reported stall lies between two beats more than the threshold apart, with at most sixteen samples, and no two overlap. |
| LoopStall.BlockedLoopOpensOneStall | backend/app/runtime/loop_stall_watchdog.py:120-149 | While the loop is blocked, checks report nothing and open exactly one stall, at the last beat, as soon as one sees the threshold passed. |
| LoopStall.LateLoopIsReported | backend/app/runtime/loop_stall_watchdog.py:120-172 | When a blocked loop beats again, the next check reports exactly one stall if a check in between was late, from the beat before to the beat after, with the samples read at the first late check and then at each at least 0.25 seconds after the one before, sixteen at most; otherwise nothing. |
| LoopStall.ReportMayOpenNext | backend/app/runtime/loop_stall_watchdog.py:120-149 | The check that reports a stall opens the next one exactly when the new beat is late already, unless writing the reserved line failed. |
| LoopStall.ThirtyReportsInTenMinutes | backend/app/runtime/loop_stall_watchdog.py:120-181 | Over any run, each closed stall offers one line, the lines reserved are exactly the limiter's admissions, and no ten minutes hold more than thirty. |
| GcTuning.GcTuner.StartGcTuning | backend/app/runtime/gc_tuning.py:86-128 | A start joins the active session or opens one, and leaves everything as it was when its freeze task cannot be started. |
| GcTuning.GcTuner.ReleaseLease | backend/app/runtime/gc_tuning.py:115-127 | A release counts once however often it is called; the last one restores the session. |
| GcTuning.GcTuner.FreezeAfter | backend/app/runtime/gc_tuning.py:60-72 | The delayed task freezes if it was not cancelled, and marks the freeze as done for the process. |
| GcTuning.LeasesBalance | backend/app/runtime/gc_tuning.py:53-128 | In every interleaving: thresholds are the original ones and nothing is frozen when no lease is held, `users` is the number of unreleased leases, the process freezes at most once. |
| GcTuning.LedgerAgrees | backend/app/runtime/gc_tuning.py:53-128 | In every interleaving the sessions and their counts do what a set of leases does: while one is out the thresholds are those wished by the start that found none out, the one freeze is due exactly when that start asked for it and none had happened, and the last lease back undoes both. |
| GcTuning.UnfrozenAtLastRelease | backend/app/runtime/gc_tuning.py:74-83 | A frozen process is unfrozen by exactly one step: the release of the last lease. |
| GcTuning.NoFreezeAfterRestore | backend/app/runtime/gc_tuning.py:60-83 | A restored session never freezes again, however late its task wakes. |
| Totp.CodeIsTruncation | backend/app/core/totp.py:20-24 | Every code is six digits that denote the truncated digest modulo a million (section 5.3 of RFC 4226). |
| Totp.TruncationIsBigEndian | backend/app/core/totp.py:20-24 | The truncated number is made of four bytes from the offset in the last byte, most significant first, without its top bit (section 5.3 of RFC 4226). |
| Totp.ExampleOfTheStandard | backend/app/core/totp.py:20-24 | The digest of section 5.4 of RFC 4226 gives its code, 872921. |
| Totp.MatchingCounterIsNewest | backend/app/core/totp.py:27-33 | A counter is found exactly when one within a step of the clock matches and is newer than the last used, and it is the newest such. |
| Totp.CounterOfClock | backend/app/core/totp.py:27-33 | The counter of a time is the number of whole 30 seconds since the epoch. |
| Auth.AuthStore.Login | backend/app/db/auth.py:75-119 | One transaction: admission window, purge, lock, code, failure and lock, or counter and session; rolled back whole when the session exists. |
| AuthAnswers.AnswerSaysWhatHappened | backend/app/db/auth.py:75-119 | A login returns its token exactly when it issued the session under the token's hash and consumed a newer acceptable counter, which is exactly when it was admitted, the address not locked, the password right and the code good; `ip_locked` holds exactly when this call locked the address until 900 seconds later, `rate_limited` exactly when the attempt was not recorded, 30 being in the trailing minute, and a notice is due exactly when its time became now; every other evaluated attempt is recorded as a failure. |
| AuthAnswers.TokensAreEarned | backend/app/db/auth.py:97-119 | A returned token needs the right password and a code of an unused counter within a step of the clock, and its session is authentic at once. |
| Auth.AuthStore.Authenticate | backend/app/db/auth.py:121-146 | A well-formed token authenticates exactly when its session stands; only its last-seen time may change. |
| AuthAnswers.TokenShape | backend/app/db/auth.py:121-123 | A token is looked up exactly when it is 64 hexadecimal digits in lower case. |
| AuthAnswers.VisitsAreSeen | backend/app/db/auth.py:124-145 | A visit moves the last-seen time of an authentic session when a minute has passed since the last, unless the database is busy, and touches nothing else. |
| Auth.AuthStore.Revoke | backend/app/db/auth.py:158-163 | Revokes the current session, or all those not yet revoked. |
| AuthRuns.CountersIncrease | backend/app/db/auth.py:99-113 | Whatever the clock does, consumed counters strictly increase, so no code is accepted twice (section 5.2 of RFC 6238). |
| AuthRuns.SessionsBoundedByClock | backend/app/core/totp.py:27-33 | In any run, whatever the clock does, the logins between t0 and t1 issue at most floor(t1/30) - floor(t0/30) + 3 sessions. |
| AuthRuns.NoticesAreSpaced | backend/app/db/auth.py:83-89 | Rate notices are at least 900 seconds apart. |
| AuthRuns.ThirtyLoginsAMinute | backend/app/db/auth.py:80-90 | Every 60 seconds hold at most 30 admitted logins, and a login is refused exactly when the trailing 60 seconds hold 30. |
| AuthLocks.FiveWrongAttempts | backend/app/db/auth.py:91-112 | Every 900 seconds hold at most five evaluated wrong attempts of one address. |
| AuthLocks.ExactlyTheFifthLocks | backend/app/db/auth.py:94-112 | A wrong attempt reports the lock exactly when it is the fifth of its 900 seconds; with five already there, no code is checked or consumed. |
| AuthLocks.OtherAddressesDoNotMatter | backend/app/db/auth.py:91-112 | Logins of other addresses change neither the failures nor the lock of this one, beyond deleting what is out of date. |
| AuthLocks.ExpiredLockClearsItsFailures | backend/app/db/auth.py:91-92 | When a lock has expired, none of the failures that caused it is left. |
| AuthSessions.AuthenticExactlyWhileStanding | backend/app/db/auth.py:113-163 | Over any run, a session authenticates exactly when a login issued it, neither it nor all were revoked since, and it has not expired. |
| MarketIdentity.KeyRoundTrip | backend/app/models/market_identity.py:31-48 | Validating a stored key again gives the same key exactly when a perpetual's DEX has no blank at its ends and no other market has a blank DEX; otherwise it is rejected, or loses the blank. |
| MarketIdentity.KeyIsNormalized | backend/app/models/market_identity.py:31-48 | Exactly which keys are accepted, and as what: exchange without blanks and in lower case, the symbol without blanks, and for a Hyperliquid perpetual the DEX before the colon, or "main"; a given DEX must agree with it, and elsewhere be blank. |
| MarketIdentity.BlankBeforeColon | backend/app/models/market_identity.py:31-48 | A symbol whose stored key is rejected when read back. |
| MarketIdentity.WellFoundedExactly | backend/app/models/market_identity.py:105-127 | A binding is accepted exactly when it has none of the seven defects. |
| MarketIdentityRepository.MarketIdentityRepository.SaveBinding | backend/app/db/market_identity_repository.py:93-161 | A save succeeds exactly at the expected revision, and then writes the next revision and one audit row. |
| MarketWrites.SaveDecides | backend/app/db/market_identity_repository.py:93-161 | A save stores its binding at the next revision, with one audit row of the old and the new binding, exactly when the live revision, 0 for an unknown key, is the expected one. |
| MarketIdentityRepository.MarketIdentityRepository.Discover | backend/app/db/market_identity_repository.py:163-182 | Unknown markets enter as revision 1, known ones are left alone; a snapshot without a valid key is passed over, one without a valid binding fails the call before anything is written. |
| MarketIdentityRepository.DiscoverableIsPending | backend/app/db/market_identity_repository.py:163-177 | Every discovered binding comes from one of the snapshots, is pending at revision 1 and passes the validator. |
| MarketWrites.DiscoverDecides | backend/app/db/market_identity_repository.py:163-182 | A discovery leaves known keys and the audit alone and gives every unknown key the first binding for it, at revision 1. |
| MarketWrites.SnapshotsDecide | backend/app/db/market_identity_repository.py:163-182 | A call fails exactly when a snapshot has a key but no valid binding; otherwise every key that a snapshot names is offered its first one. |
| MarketWrites.PendingIsSnapshot | backend/app/db/market_identity_repository.py:163-177 | A discovered binding is named by the base of its snapshot, with its kind, or crypto, and its original quote, or else its quote, as currency, pending in everything; exactly which snapshots are passed over or fail the call. |
| MarketIdentityRepository.MarketIdentityRepository.ImportCatalog | backend/app/db/market_identity_repository.py:184-273 | A batch leaves the same bindings and audit rows as its items imported one at a time at the same `now`; the count is the number of audit rows. |
| MarketWrites.ImportDecides | backend/app/db/market_identity_repository.py:204-222 | For a key that the catalog may write: an unknown one is stored at revision 1, a pending row takes the item, a verified row with another fingerprint becomes a conflict with pending units, its own terms and the joined evidence up to 20, whatever its validity, and one that agrees is left alone for more than a day and refreshed otherwise; each write adds one audit row, and any other key or state none. |
| MarketWrites.ImportedSplits | backend/app/db/market_identity_repository.py:204-232 | A batch is its first items followed by the rest. |
| MarketRuns.AuditIsAChain | backend/app/db/market_identity_repository.py:93-273 | Under any saves, discoveries and imports, a key's audit rows form an unbroken chain of revisions and bindings from 0, or from 1 when discovered first, to the live row. |
| MarketRuns.OneSavePerRevision | backend/app/db/market_identity_repository.py:93-102 | Of two saves of a key with the same expected revision at most one is accepted, whatever happens in between. |
| MarketRuns.ImportHandsOff | backend/app/db/market_identity_repository.py:204-210 | An import writes nothing for a key whose newest audit actor is not the catalog, or whose row is in conflict or expired. |
| MarketRuns.DashboardDecides | backend/app/db/market_identity_repository.py:184-210 | A dashboard save stands, through any discoveries and imports, until the key is saved again. |
| MarketFingerprints.ItemKeepsFingerprint | backend/app/db/market_identity_repository.py:207-222 | One item changes the fingerprint of a row exactly when the row is pending, the catalog may write it and the item is for its key with another fingerprint; a row that is not pending becomes so exactly by a pending item with its terms when it is verified for a day or less. |
| MarketFingerprints.VerifiedKeepsFingerprint | backend/app/models/market_identity.py:129-141 | A batch without pending items for a key keeps the fingerprint of its row if that is not pending; with verified items only, a verified row stays verified or becomes a conflict. |
| MarketFingerprints.SafeIffKept | backend/app/db/market_identity_repository.py:204-222 | The batches that keep the fingerprint of every row that is not pending, at every time and throughout, are exactly those without a clash: a pending item whose next one differs, after items that agree with it. |
| MarketFingerprints.ClashChanges | backend/app/db/market_identity_repository.py:204-222 | For every clash, a verified row and a time at which the batch changes its fingerprint. |
| MarketFingerprints.PendingItemOpensTheDoor | backend/app/db/market_identity_repository.py:211-222 | Once a pending item has opened a verified row, the next item's terms are what is stored. |
| MarketRuns.ImportIsIdempotent | backend/app/db/market_identity_repository.py:211-221 | Importing a batch of verified items again writes nothing, as long as they stay valid for more than a day and no verified row of their keys that the catalog may write enters its last day in between. |
| MarketRuns.StoredBindingsAreWellFounded | backend/app/models/market_identity.py:105-127 | Every stored binding satisfies the validator of bindings if every input does, conflicts made by an import included. |
| MarketIncidents.IncidentLog.RecordIncident | backend/app/db/market_identity_repository.py:293-320 | A report upserts its incident and adds an event only for a new incident or a new state. |
| MarketIncidents.IncidentsFollowReports | backend/app/db/market_identity_repository.py:293-320 | Per incident, the row summarizes all its reports and the events are exactly its changes of state. |
| Coins.ChooseIsFirstFew | backend/app/exchanges/hyperliquid_bbo.py:53-67 | The chosen coins are as many candidates as the cap allows, and each precedes every one left out in the order of the sort key. |
| Coins.SubscribedAreKept | backend/app/exchanges/hyperliquid_bbo.py:53-67 | No subscribed candidate is left out by the cap. |
| HyperliquidBbo.HyperliquidBboStream.SetCoins | backend/app/exchanges/hyperliquid_bbo.py:53-67 | The new coin set, the quotes of dropped coins removed, and whether anything changed. |
| HyperliquidBbo.HyperliquidBboStream.HandleMessage | backend/app/exchanges/hyperliquid_bbo.py:80-112 | A message about a wanted coin replaces its quote and counts, or removes the quote when malformed; any other changes nothing. |
| BboRuns.MessageIsRead | backend/app/exchanges/hyperliquid_bbo.py:80-112 | A well-formed message about a wanted coin stores exactly the price and size of the first level as bid and of the second as ask, with its time and arrival; any other about it removes its quote, and no other quote changes. |
| HyperliquidBbo.HyperliquidBboStream.GetFresh | backend/app/exchanges/hyperliquid_bbo.py:114-125 | A quote, if connected, within both age limits, two-sided and uncrossed. |
| HyperliquidBbo.HyperliquidBboStream.MessagesInFiveMinutes | backend/app/exchanges/hyperliquid_bbo.py:127-134 | The sum of the buckets after the cutoff second. |
| BboRuns.FreshIsReplayed | backend/app/exchanges/hyperliquid_bbo.py:80-125 | Over any run of connects, disconnects, coin changes, messages and sends, a query equals a replay of the log on the messages' own fields: the newest message naming the coin since the connection opened and the coin was last listed, its first level as bid and its second as ask, if both are usable, the bid is below the ask, and both ages are in bounds. |
| BboRuns.QuotesStayInside | backend/app/exchanges/hyperliquid_bbo.py:53-112 | Quotes are kept only for wanted coins. |
| BboRuns.WantedAreAcceptable | backend/app/exchanges/hyperliquid_bbo.py:53-67 | The wanted coins are requested names that are not empty, start with no @ and hold no slash, as many of them as the cap allows; exactly the quotes of coins no longer wanted go. |
| BboRuns.SubscribedIsFold | backend/app/exchanges/hyperliquid_bbo.py:151-179 | While coins change between any two steps of the sender, the subscribed set is the fold of this connection's messages, never exceeds the cap, and no message is redundant. |
| BboRuns.CapNeverEvicts | backend/app/exchanges/hyperliquid_bbo.py:53-67 | A subscribed coin that is still listed stays wanted. |
| BboRuns.DrainReachesTarget | backend/app/exchanges/hyperliquid_bbo.py:151-179 | With a fixed target, as many messages as the two sets differ by reach it, unsubscriptions first, and then sending stops. |
| BboRuns.SendsInNameOrder | backend/app/exchanges/hyperliquid_bbo.py:151-174 | The sender takes the first by name of the coins to drop, and then of those to add; it has nothing to send exactly when the sets agree. |
| BboRuns.TurnsSettle | backend/app/exchanges/hyperliquid_bbo.py:151-179 | From any point of any run, after connecting or completing the message on its way, as many turns of the sender as the two sets then differ by settle, with exactly one message each, and further turns send nothing. |
| BboRuns.FiveMinuteCountIsExact | backend/app/exchanges/hyperliquid_bbo.py:102-134 | With a clock that does not go back, the 301 buckets report exactly the well-formed messages of the trailing 300 whole seconds, across reconnects. |
| BboRuns.SecondsAreWhole | backend/app/exchanges/hyperliquid_bbo.py:102-109 | A time is counted in its whole second, cut off toward zero. |
| MinuteSignal.MinuteSignalEngine.OnBar | script/minute_basis_signal_framework.py:337-405 | One bar takes the engine to its next state and emits that step's events. |
| SignalRuns.OneEventPerBar | script/minute_basis_signal_framework.py:337-405 | At most one event per bar, only the one its state and features allow, leading to the state that event names. |
| SignalRuns.BarDecides | script/minute_basis_signal_framework.py:337-405 | A bar emits exactly the alert, the entry or the exit that its figures call for, and otherwise leads to exactly the state they call for: shock, reset and entry figures, the expiry of a shock and the end of a cooldown are stated on the bar and the configuration alone. |
| SignalRuns.TraceGrammar | script/minute_basis_signal_framework.py:337-405 | Every trace is (SHOCK_ALERT+ ENTRY exit)* with a possible unfinished round. |
| SignalRuns.NothingDuringCooldown | script/minute_basis_signal_framework.py:328-345 | Nothing follows an exit within a minute plus the cooldown. |
| SignalRuns.ExitsAreJustified | script/minute_basis_signal_framework.py:385-405 | Every exit closes the entry right before it, on the first bar due for one, for the first reason that applies, and reports the gain since that entry. |
| SignalRuns.ExitIsDue | script/minute_basis_signal_framework.py:385-396 | A position ends for the profit, else the loss, else after the maximum of whole minutes, and otherwise stays. |
| SignalRuns.HoldKnowsItsEntry | script/minute_basis_signal_framework.py:328-335 | The holding state always has an entry time and basis. |
| SignalRuns.EntryOnExpiryBar | script/minute_basis_signal_framework.py:353-369 | An entry reports the idle state as its origin exactly when it falls on the bar that expires the shock. |
| GateTwap.RoundDownIsLargest | script/gate_twap_sell.py:245-253 | Rounding gives the largest whole number of steps not above the size. |
| GateTwap.FloorFits | script/gate_twap_sell.py:227-253 | A floored size is zero, or a whole number of steps between the minimum and the size asked for. |
| GateTwap.StepIsLastPlace | script/gate_twap_sell.py:227-234 | A step is one unit of the last decimal place of the minimum, or a whole contract. |
| GateTwap.PreviewSchedule | script/gate_twap_sell.py:350-381 | The preview's orders and remainder are those of the schedule. |
| GateTwap.DryRun | script/gate_twap_sell.py:412-467 | The run without credentials places the same orders and leaves the same remainder as the preview. |
| GateTwap.LiveRun | script/gate_twap_sell.py:412-467 | With credentials the orders sent are exactly the positive sizes due at the positions read, in order, up to the first position with nothing to reduce. |
| GateTwap.LiveSizeIsLargest | script/gate_twap_sell.py:290-299 | So is the order at every position read: of a long position to sell, or of a short one to buy back. |
| GateTwap.ScheduleConserves | script/gate_twap_sell.py:412-467 | Orders and remainder add up to the initial size; every order is a multiple of the step, at least the minimum and at most what remains. |
| GateTwap.ScheduleIsLargest | script/gate_twap_sell.py:236-253 | Every order of a schedule is the largest whole number of steps that is neither above what is asked for, the percentage of the initial or the remaining size or everything for the last, nor above what is left, and none when that is below the minimum. |
| GateTwap.LastOrderTakesAll | script/gate_twap_sell.py:452-467 | With the last order taking all, what is left is nothing, a part of a step, or rounds below the minimum. |
| GateTwap.AlignedStartLeavesNothing | script/gate_twap_sell.py:452-467 | From a whole number of steps, what is left is nothing or below the minimum. |
| GateTwap.MinimumInSteps | script/gate_twap_sell.py:227-234 | The minimum is a whole number of steps exactly when sizes are decimal, it has no decimals, or its decimals are zero. |
| GateTwap.NothingLeftIffWholeMinimum | script/gate_twap_sell.py:227-253 | The last order leaves nothing or less than the minimum, for every schedule and start, exactly when the minimum is positive and a whole number of steps. |
| GateTwap.WholeMinimumLeavesNothing | script/gate_twap_sell.py:452-467 | With such a minimum any start, aligned or not, leaves nothing or less than the minimum. |
| GateTwap.FractionalMinimumCanLeaveMore | script/gate_twap_sell.py:227-253 | Whole units with a minimum of 0.5 and a start of 0.7: all of it is left. |
| GateTwap.OrderNeverFlips | script/gate_twap_sell.py:290-299 | An order never turns a position's sign. |
| AlertRound.GroupMatches | backend/app/main.py:705-709 | The groups partition the matches by symbol, in first-seen order and each in match order; one permit keeps one group. |
| AlertRound.InFlightIsBounded | backend/app/main.py:711-727 | In every interleaving at most `concurrency` matches are in flight, never two of one symbol; a task has one in flight exactly while one more was started than has returned. |
| AlertRound.SameSymbolOrder | backend/app/main.py:711-727 | Matches of a symbol are started in evaluation order, none twice or skipped, all of them once the round completes. |
| AlertRound.OnePermitKeepsTheOrder | backend/app/main.py:708-709 | With concurrency 1 the whole evaluation order is kept. |
| AlertRound.CompletedRound | backend/app/main.py:711-738 | A completed round has run every match exactly as often as it was evaluated, each has returned, all permits are back, and it is healthy exactly when none returned false. |
| AlertRound.NeverStuck | backend/app/main.py:711-727 | As long as a task is unfinished some task can move on. |
| AlertRound.RoundsEnd | backend/app/main.py:711-727 | No interleaving goes on for ever. |
| AlertRound.DrainLeavesNoOrphan | backend/app/main.py:728-734 | A cancelled and drained round leaves no match in flight and no permit held, and starts nothing more. |
| AlertStore.KeyReadsBack | backend/app/main.py:359 | Partitioning a key gives its rule and opportunity back exactly when the rule id has no colon. |
| AlertStore.AlertDeliveryStore.MarkPending | backend/app/services/alert_delivery_store.py:40-50 | The row becomes pending since `now`, and no other changes its mark. |
| AlertResults.MarkKeepsTheRest | backend/app/services/alert_delivery_store.py:40-50 | A mark hides what its row says and changes none of it. |
| AlertStore.AlertDeliveryStore.Record | backend/app/services/alert_delivery_store.py:52-72 | The row takes the exported state and its mark is cleared. |
| AlertStore.AlertDeliveryStore.Prune | backend/app/services/alert_delivery_store.py:74-79 | Old rows go, and no pending mark. |
| AlertResults.PrunedRows | backend/app/services/alert_delivery_store.py:74-79 | Pruning deletes exactly the rows older than the limit without a mark. |
| AlertStore.AlertEngine.Restore | backend/app/services/alert_engine.py:41-60 | The engine is rebuilt from the table, an interrupted send counting as sent when marked; the unknown keys are exactly the pending ones, each once. |
| AlertStore.AlertEngine.RecordDeliveryResult | backend/app/services/alert_engine.py:125-148 | The engine's next state after a result, as `AlertResults.EngineFollowsResults` characterizes it; nothing of other keys changes. |
| AlertResults.EngineFollowsResults | backend/app/services/alert_engine.py:125-148 | After any history of results, a key's send time is that of its newest sent result, its attempts are the unsuccessful results since, and it may retry after the newest of them by 60, 120, 240, 480 and then 900 seconds, or its cooldown if shorter; results of other keys play no part. |
| AlertResults.EvaluateDecides | backend/app/services/alert_engine.py:104-122 | An evaluation takes up the retries that are due, which keep their count, and forgets those of alerts no longer active; send times stay. |
| AlertResults.RestoredAsRecorded | backend/app/services/alert_engine.py:41-60 | What is recorded for a key is restored: send time, attempts, and a retry still to come; other keys keep theirs. |
| AlertResults.RestoredAsMarked | backend/app/services/alert_engine.py:48-55 | An interrupted send is restored as sent when it was marked, without retries. |
| AlertStore.RetriesBackOff | backend/app/services/alert_engine.py:137-146 | The pause before a retry never shrinks and never exceeds the cooldown; with a cooldown of at least 15 minutes it starts at a minute and is 15 minutes exactly from the fifth attempt on. |
| AlertDelivery.SendsArePending | backend/app/main.py:590-612 | In every run with crashes and failing writes, a send happens while the committed row of its key is pending since that delivery's mark. |
| AlertDelivery.UnseenSendIsAccounted | backend/app/main.py:351-389 | A send whose result was never seen has its mark waiting for its delivery or for recovery, or its "unknown" event, or its recovery failed to write that event. |
| AlertResults.DeliveryLeavesItsResult | backend/app/main.py:609-638 | A send whose writes succeed leaves an event that says sent or failed as it was, its send time in engine and table if sent, one more attempt and the time of its retry otherwise, and no mark. |
| AlertResults.MutedDelivery | backend/app/main.py:581-633 | A muted delivery sends nothing, keeps the send time, and counts an attempt with the time of its retry. |
| AlertTraces.UnseenSendWaits | backend/app/main.py:351-389 | Unless a recovery write of an event fails, such a send has its "unknown" event or its mark waits. |
| AlertTraces.NoSendIsForgotten | backend/app/main.py:595-634 | In every run, a send has an event, its pending mark or its delivery in flight exactly until a losing step: its delivery is abandoned, by a crash or a failing event write, when its mark is gone, or its mark is overwritten by a later delivery when its own is over. |
| AlertTraces.HarmlessRunsLoseNothing | backend/app/main.py:595-634 | Without failing event writes and without a crash between a delivery's last two writes, every send keeps a trace, whatever else fails or crashes. |
| AlertTraces.CrashBeforeTheEventLoses | backend/app/main.py:622-633 | A run in which every write succeeds and a crash leaves a send without a trace. |
| AlertTraces.FailingEventLoses | backend/app/main.py:631-637 | A run in which a failing event write does. |
| AlertTraces.TwoFailingWritesLose | backend/app/main.py:621-637 | A run in which both last writes fail and a later mark of the key takes the rest. |
| AlertTraces.FailingRecoveryLoses | backend/app/main.py:376-384 | A run in which recovery fails to write the event and a later mark of the key takes the rest. |
| AlertDelivery.OneUnknownEvent | backend/app/main.py:360-384 | However often recovery crashes, a mark gets at most one "unknown" event, and only a committed mark gets one. |
| AlertDelivery.ClearedAfterEvent | backend/app/main.py:376-389 | Recovery clears a mark only when its event is in the table. |
| AlertDelivery.RestartKeepsCooldowns | backend/app/main.py:355-358 | A crash during recovery loses no cooldown: the next start restores the same send times. |
| AlertDelivery.CleanStart | backend/app/main.py:351-389 | After any run, a start whose writes succeed leaves no mark pending and every mark it found has its event. |
| BackupRetention.SelectRetained | deploy/backup_retention.py:56-72 | The retained paths are those of the backups the rules keep. |
| BackupRetention.KeptExactly | deploy/backup_retention.py:56-72 | A backup is kept exactly when it is among the newest three, dated in the future, the first of one of the last seven days, or the first of its week between seven and 34 days back after fewer than four such weeks. |
| BackupRetention.WeekIsMondayToSunday | deploy/backup_retention.py:68 | Two days are of one ISO week exactly when a Monday begins seven days that hold both. |
| BackupRetention.KeptTwice | deploy/backup_retention.py:56-72 | Selecting again from what was kept, at the same time, keeps all of it. |
| BackupRetention.NewestKept | deploy/backup_retention.py:57 | The newest three are kept. |
| BackupRetention.NewestOfDayKept | deploy/backup_retention.py:64-66 | The newest backup of each of the last seven days is kept. |
| BackupRetention.NewestOfWeekKept | deploy/backup_retention.py:67-71 | The newest backup of each of the first four ISO weeks between seven and 34 days back is kept. |
| BackupRetention.AtMostThirteenSurvive | deploy/backup_retention.py:56-72 | However many existed, at most thirteen not dated in the future survive. |
| HistoryStats.PercentilesAreMonotone | backend/app/api/routes_history.py:42-51 | Percentiles lie between the ends of the list, which are those of 0 and 1, and grow with the fraction. |
| HistoryStats.PercentileInterpolates | backend/app/api/routes_history.py:42-51 | A percentile lies on the line between the two values around its position. |
| HistoryStats.MedianIsTheMiddle | backend/app/api/routes_history.py:42-51 | The median is the middle value, or the mean of the two middle ones. |
| HistoryStats.StatsAreOrdered | backend/app/api/routes_history.py:54-78 | min <= p05 <= median <= p95 <= max, and the mean lies between min and max. |
| HistoryStats.RoundSeparates | backend/app/api/routes_history.py:81-90 | Numbers more than one apart never round to the same integer, halves to even. |
| HistoryStats.IndexIsNearest | backend/app/api/routes_history.py:81-90 | Each sampled row is the nearest to an even step from the first row to the last, an even one of two equally near. |
| HistoryStats.SampleIsExact | backend/app/api/routes_history.py:81-90 | More rows than the limit give exactly `limit` of them, in order, the first and the last included. |

## Left out

- HTTP, websockets, SQLite and files: tables are maps and sequences, a transaction is one atomic step, and a write that can fail is an outcome given to the step.
- Hashes and codes: SHA-256 and HMAC are functions given to the model without further assumptions. The identifier of an "unknown" event, a version 5 UUID, is taken to be injective, and apart from random ones.
- Floating point and `Decimal` precision: times, prices and sizes are reals or integers.
- Unicode: `strip` and `lower` are those of ASCII.
- CacheCensus.RunCensus: the size of a row that is both truncated and sampled is only bounded from below, because a scan cut short scales by the entries it got to.
- CacheCensus: the order of rows by size, the elapsed time, and how children are found by type; an object's children and shallow size are data. Memory is not modelled, so an object freed during the walk cannot give its address to another.
- GcPause: the text of lines. LoopStall: the frames of a stack; a report counts its samples. The heartbeat of one thread read by another is one atomic step.
- GcTuning: sessions are records named by their index, because closures share them; a start or a release is one step, as it runs without an await.
- Auth: listing sessions, and opening the database.
- MarketIdentityRepository: the table of asset identities, the reason and time of audit rows, `query` and hashes inside evidence, the fields of a market snapshot that a binding does not take, and the failure of a whole import when a stored key is unreadable. A market is named by its key's parts instead of their encoding.
- HyperliquidBbo: pings, backoff, the pause between sends, and reading JSON; a message is given as far as it can be read.
- MinuteSignal: the features of a bar are given, and events are not rounded; scanning a frame is one call of `OnBar` a bar.
- GateTwap: waiting, signing, order text, slippage prices and the interactive confirmation; the number of orders is given.
- AlertRound: which matches the engine evaluates, and tasks acquire permits in any order, not only in the order they wait.
- AlertDelivery: two marks of a key at the same time share one "unknown" event, as they do in the table. Diagnostics, order book checks, cards and the text of messages before a send; a shutdown, which cancels every delivery at an await, is a crash. At most one delivery of a key is in flight, as `AlertRound.InFlightIsBounded` shows for its symbol.
- BackupRetention: listing, the protected list, and deleting.
- HistoryStats: which rows a query returns, and sorting the values of a field.
- Exchange adapters, routes, settings, migrations, the frontend and the analysis scripts: field mapping with one-branch claims.
