# Silicon Hook: verified models

Silicon Hook receives webhooks for Silicons, keeps them, and tells their observers through Ting. Its hard
logic is in a handful of protocols that share state between concurrent callers, and in a few transformations
that must be exact. This project models them in Dafny and proves what they keep over every run.

## How the models are built

Three shapes recur.

* **Machines.** Concurrent code is a machine: a datatype for the shared state and the place each caller has
  reached, a datatype `Step` with one constructor per lock, statement, request, answer, crash or clock tick, and
  functions `Enabled` and `Next`. `Exec(steps)` runs any schedule; theorems hold for every `steps`.
* **Classes.** An object that updates its fields is a class. Each method is proved equal to a specification
  function on the old state; the run lemmas and the machines speak of that function.
* **Functions.** Parsers, printers and recursive rewriting are functions, with their inverse or an independent
  description beside them.

Two kinds of law speak of a run. Safety laws say what every reachable state keeps. History laws say which steps made
the state what it is: `Histories` turns a run into its past, each step beside the state it found, and a part of the
state holds if and only if a step that began it is there and no step since ended it. Beside them stand the runs that
nobody disturbs, which say that an operation takes effect.

Instants are integers (nanoseconds since the epoch). Clocks, randomness and answers of other services are
arguments or steps. The hash of a recipient, the tag of a payload, and the readers and writers of JSON, queries and
forms are function parameters; a lemma that needs more than that says so in a `requires`.

Identifiers that are generated at random (proof and refresh tokens, record, lease, subscription, event and hook ids)
are taken never to repeat. An inactive token stays inactive because time passes and sign-outs are never taken back;
that is proved of the model of Accounts, not assumed of its answers.

## The modules

* `SignOut`: tokens, sign-outs, the memory of inactive tokens and of confirmations, and the whole-second decision.
* `KeySet`: the signing keys of Silicon Accounts, fetched one at a time.
* `LookupBudget`: the per-minute budget of account lookups.
* `ProofRenewal`, `SendRuns`, `SendHistory`: the proof cache as an object, and every interleaving of sends that share it.
* `Publication`, `PublicationHistory`: leased outbox rows, publishers that crash or lose answers, and the idempotent
  receiver.
* `Observers`, `ObserverHistory`: subscribe, unsubscribe and event acceptance as locked transactions, statement by
  statement.
* `IdentityRenaming`, `RenamingSamples`, `IdentityMigration` (with `Json`): the identity mapping, the rewriting, and the
  migration.
* `Base64Url`, `Text`, `CursorCodec`, `CursorText` (with `Identifiers`): unpadded base64url (section 5 of RFC 4648),
  printed claims, the cursor codec.
* `HookLifecycle`: the hook aggregate. `RandomKeys`, `EndpointKeys`, `EndpointHistory`: sampling, and the namespace of
  endpoint keys.
* `Strikes`: strike counting and day-long blocks. `Maintenance`: fair rounds. `Redaction` (with `Queries`):
  removing credentials.

## Where the code does less than its comments say

The models follow the code. Each of these differences is a lemma.

* A refresh token can be presented twice (the comment at `src/delivery/adapter.rs:153-154` says never): a renewal that
  fails, or whose answer is lost, leaves it in place. Of two renewals the later presents the same token exactly when no
  proof came in between; a token that was renewed or replaced never returns.
* A cancelled proof request leaves no pause, so the bound on attempts counts every attempt but the cancelled ones.
* 300 lookups a minute is a bound per window. A sliding minute spends more exactly when the open window has spent more
  than the minute before it left over; 600 is the bound, and it is reached.
* Key-set fetches are spaced from successes only (the comment at `src/infrastructure/accounts.rs:31-33` says at most
  once a second). Fetches are spaced exactly when none starts within a second of one that failed or was given up.
* A cursor decodes to its boundary exactly when its time lies within the years -9999 to 9999 in UTC.
* A retired endpoint key can become current again when transactions overlap, exactly when the key was retired between
  a transaction's check of it and its commit. Operations that do not overlap never do this.
* `without_credentials` drops a parsed form only together with the query, so a form parsed before can outlive a redacted
  body. The method has no caller in this repository.
* A migration can move an account to an identity that an earlier one migrated away; every check passes, and the tokens
  of that account are refused from then on. It happens exactly when a target is already an old identity in the ledger.

A fact worth knowing beside them: restoring a hook that was disabled before its deletion brings it back enabled.

## Model

| member | source | states |
|---|---|---|
| SignOut.FirstLookIsSound | src/application/access.rs:228-236 | whole seconds decide only what they can: "ended" means issued before the sign-out, "not ended" at or after it, and Accounts is asked exactly within the sign-out's own second |
| SignOut.EndedBySignOutIsSound | src/application/access.rs:222-242 | in every interleaving "not ended" is said only of tokens issued at or after the recorded sign-out, "ended" only of tokens Accounts no longer honours, and the sign-out asked about really happened |
| SignOut.EndedBySignOutIsExact | src/application/access.rs:222-242 | for a live token of Hook's and the account's latest sign-out, "ended" is answered if and only if the token was issued before it |
| SignOut.MemoriesAgreeWithAccounts | src/infrastructure/accounts.rs:277-336 | both memories stay within 10,000 entries; every remembered inactive token is inactive now; every confirmation names a sign-out not after the token's true issue time |
| SignOut.RefusedTokensAreInactive | src/infrastructure/accounts.rs:277-302 | "no longer active" agrees with Accounts at the moment it is said, remembered or asked |
| SignOut.ActiveAnswersAreAskedFor | src/infrastructure/accounts.rs:277-302 | an "active" answer was given by Accounts in that very call, and was true then |
| SignOut.SignOutIsSeenAtOnce | src/application/access.rs:250-260 | a check that starts after a token stopped being active never calls it active |
| SignOut.FreshEntriesAreKept | src/infrastructure/accounts.rs:292-299 | making room drops entries younger than thirty minutes only when 10,000 of them are that young |
| SignOut.Memories.RememberInactive | src/infrastructure/accounts.rs:291-300 | the map afterwards equals the specified one: drop old entries, clear only if still full, insert; at most 10,000 entries |
| SignOut.Memories.RememberConfirmed | src/infrastructure/accounts.rs:329-334 | the confirmation replaces any older one of the token; the map never exceeds 10,000 entries |
| SignOut.RecordedIsTheLatestLearned | src/infrastructure/postgres/accounts_events.rs:380-399 | the sign-out recorded for an account is the latest one Hook was told of, in whatever order the news came, and none is recorded before the first |
| SignOut.EndingsAreTheSignOuts | src/infrastructure/accounts.rs:304-315 | the model of Accounts has ended exactly the sign-ins that were signed out |
| SignOut.CallsAskAboutLearnedSignOuts | src/application/access.rs:222-242 | the sign-out a check asks about is one of the token's account that Hook had been told of |
| SignOut.CallsAskAboutTheLatestLearned | src/application/access.rs:222-242 | a check asks about a sign-out no older than any Hook had been told of when the check began |
| SignOut.NotEndedCoversEverySignOutLearned | src/application/access.rs:222-242 | "not ended" means the token was issued at or after every sign-out of its account that Hook had been told of when the check began |
| SignOut.UndisturbedCallsAreDecided | src/infrastructure/accounts.rs:277-336 | from any point of either check, if nobody disturbs it and Accounts answers, the check ends with an answer to its own question about its own token |
| SignOut.InactiveAnswersSpareAsking | src/infrastructure/accounts.rs:278-301 | after an inactive answer the token is refused without asking for exactly thirty minutes |
| SignOut.RememberedForThirtyMinutes | src/infrastructure/accounts.rs:278-301 | a token is remembered as inactive for exactly thirty minutes from the answer that said so |
| SignOut.ChecksBeginUnderway | src/application/access.rs:222-260 | both checks begin at such a point, so only an unanswered question can leave one without an answer |
| SignOut.ConfirmationsSpareAsking | src/infrastructure/accounts.rs:323-336 | after a confirmation the same question about the token is answered without asking, and one about another sign-out is not |
| KeySet.FetchesNeverOverlap | src/infrastructure/accounts.rs:247-268 | in every interleaving at most one caller is fetching |
| KeySet.FetchesAreSpacedFromSuccesses | src/infrastructure/accounts.rs:243-268 | every fetch after a success starts at least one second after it |
| KeySet.RefetchIsNewOrRecent | src/infrastructure/accounts.rs:217-268 | who asks again gets a set that really arrived, different from the one it saw or fetched less than a second before |
| KeySet.FailedFetchesAreNotSpaced | src/infrastructure/accounts.rs:31-34 | a schedule in which two fetches start at the same instant because the first failed |
| KeySet.StartIsSpacedExactlyFromOldFailures | src/infrastructure/accounts.rs:247-268 | a new fetch starts an interval after every earlier one if and only if every fetch left unanswered since the last arrival began that long ago |
| KeySet.FetchesAreSpacedExactlyWhenFailuresAreWaitedOut | src/infrastructure/accounts.rs:31-34 | over whole runs: no two fetches start within one interval if and only if no fetch starts within an interval of an unanswered one |
| KeySet.SuccessfulFetchesAreSpaced | src/infrastructure/accounts.rs:31-34 | while no fetch under way fails or is given up, whoever else is cancelled, any two fetches start at least a second apart |
| KeySet.LockIsHeldExactly | src/infrastructure/accounts.rs:247-268 | the fetch lock is held exactly while its holder looks or fetches: a fetch that arrives, fails or is given up frees it |
| KeySet.CachedIsTheLastArrival | src/infrastructure/accounts.rs:265-268 | what is cached is the set that arrived last in the run, with the instant of its arrival |
| KeySet.CallersGetTheLastArrival | src/infrastructure/accounts.rs:233-241 | a caller gets the set that arrived last at once, and waits exactly when none has arrived |
| KeySet.LockHolderFetchesExactly | src/infrastructure/accounts.rs:247-258 | who gets the lock fetches exactly when no set has arrived, or the last to arrive is the one it saw and came a second ago or more; else it gets that one |
| KeySet.ArrivalsAreReturned | src/infrastructure/accounts.rs:259-268 | a fetch that arrives is given to its caller and is from then on the set everybody gets |
| KeySet.LogIsTheHistory | src/infrastructure/accounts.rs:247-268 | the log the other laws speak of lists exactly the fetches the steps began and the sets they received, in order and with their times |
| LookupBudget.CounterIsLedger | src/infrastructure/accounts.rs:349-364 | the counter is exactly the number of lookups granted since the open window began; a window begins with a call, at least a minute after the one before, and no call comes a minute after it |
| LookupBudget.RefusedOnlyWhenSpent | src/infrastructure/accounts.rs:349-364 | a lookup is refused if and only if 300 were granted in the window still open |
| LookupBudget.AtMostSixHundredInAnyMinute | src/infrastructure/accounts.rs:40-42 | any run spends at most 600 lookups in any sliding minute |
| LookupBudget.SlidingMinuteIsTwoWindows | src/infrastructure/accounts.rs:349-364 | the minute that ends with a call spends exactly what was granted in it before the open window began, plus what that window has spent |
| LookupBudget.MoreThanThreeHundredExactlyAcrossWindows | src/infrastructure/accounts.rs:349-364 | a sliding minute spends more than 300 if and only if the open window has spent more than the lookups granted in the minute before it left over |
| LookupBudget.TwiceTheBudgetInOneSecond | src/infrastructure/accounts.rs:349-364 | a run in which 600 lookups are granted within one second, so 300 is not a sliding bound |
| ProofRenewal.ProofCache.Obtain | src/delivery/adapter.rs:193-222 | the proof kept is the renewal's, or a newly issued one when there is nothing to renew or the renewal is refused; any other failure keeps the old proof |
| ProofRenewal.PauseDoublesUpToFiveMinutes | src/delivery/adapter.rs:84-89 | the capped shift equals min(300, 30 * 2^(n-1)) seconds for every n |
| ProofRenewal.PauseSumIsLinear | src/delivery/adapter.rs:84-89 | the first n >= 4 pauses add up to 450 + 300 (n - 4) seconds |
| ProofRenewal.FewAttemptsInAnyWindow | src/delivery/adapter.rs:155-191 | spaced failures put at most 5 + (T - 450) / 300 attempts into T >= 450 seconds |
| SendRuns.OneRenewalInFlight | src/delivery/adapter.rs:148-191 | in every interleaving at most one caller is asking Accounts for a proof |
| SendRuns.UninterruptedStepsAreTheCriticalSection | src/delivery/adapter.rs:148-222 | the machine's steps of one caller, run without interruption, leave the cache and the call exactly as the locked method `ProofCache.GetToken` does, whatever Accounts answers |
| SendRuns.SpentRefreshIsNeverPresented | src/delivery/adapter.rs:193-222 | a refresh token that was renewed, or refused and replaced by a new issue, is never at Accounts again |
| SendRuns.ReplacedRefreshNeverReturns | src/delivery/adapter.rs:193-222 | a known refresh token that has left the cache stays out of it for the rest of the run |
| SendRuns.RefreshIsPresentedAgainExactlyWithoutAProof | src/delivery/adapter.rs:153-222 | of two renewals at any two moments of a run, the later presents the earlier one's refresh token if and only if no proof came in between |
| SendRuns.UnansweredRefreshIsPresentedTwice | src/delivery/adapter.rs:153-191 | a schedule that presents one refresh token twice |
| SendRuns.AtMostTwoPostsOfTheSameBytes | src/delivery/adapter.rs:300-321 | one send posts at most twice, always the caller's bytes, and the second post never carries the first one's token |
| SendRuns.OnlyARefusedProofIsRetried | src/delivery/adapter.rs:300-321 | a call sends again only after Ting refused its proof |
| SendRuns.LateRefusalKeepsNewerProof | src/delivery/adapter.rs:225-232 | a refusal of anything but the newest proof changes nothing, and no refusal discards a refresh token |
| SendRuns.NewAttemptWaitsOutThePause | src/delivery/adapter.rs:155-191 | an attempt after n consecutive failures starts at least min(300, 30 * 2^(n-1)) seconds after the last one, whoever makes it |
| SendRuns.AttemptPausesExactlyWhenItFails | src/delivery/adapter.rs:155-191 | the end of an attempt holds the next one back if and only if the attempt failed: not after a proof, and not after a cancelled call |
| SendRuns.FailedAttemptsAreFew | src/delivery/adapter.rs:155-191 | in every run the failed attempts since the last success obey the 5 + (T - 450) / 300 bound |
| SendRuns.AttemptsWithTheOneInFlightAreFew | src/delivery/adapter.rs:155-191 | the bound holds with the attempt under way counted in |
| SendRuns.AttemptsAreAccountedFor | src/delivery/adapter.rs:148-191 | every attempt begun since the last proof failed, was cancelled or is under way, so the bound counts all but the cancelled ones |
| SendRuns.CancelledAttemptLeavesNoPause | src/delivery/adapter.rs:148-191 | a schedule whose second attempt begins at the instant of a first that was cancelled |
| SendHistory.CacheHoldsTheNewestProof | src/delivery/adapter.rs:193-246 | in every run the cache holds the newest proof received, whole as Accounts issued it; only a report that Ting refused that very proof changes it, and only its expiry |
| SendHistory.LockHolderIsServedPausedOrAsks | src/delivery/adapter.rs:117-191 | who gets the lock sends at once with the newest proof exactly when that was not refused and has more than a minute left; else it gives up exactly during the pause of the last failure; else it asks, for a renewal exactly where the newest proof came with a refresh token |
| SendHistory.AttemptEndsAsAnswered | src/delivery/adapter.rs:148-222 | an undisturbed attempt caches and sends the proof Accounts gave, asking for a new one where the renewal was rejected; any other answer fails the call, keeps the proof and pauses the next attempt for min(300, 30 * 2^(n-1)) seconds |
| SendHistory.FirstRefusalOnlyIsRetried | src/delivery/adapter.rs:300-321 | an answer of Ting ends the call, except that the first refusal of a proof makes it forget the token it posted |
| SendHistory.ForgettingAsksForAnother | src/delivery/adapter.rs:225-232 | the call then asks for a token again; the refused one is never usable again, and the newest proof keeps its refresh token |
| Publication.ProducerKeyIsInjective | src/delivery/mod.rs:79-85 | with a collision-free digest the producer key determines the event and the recipient |
| Publication.RecordCarriesThePersistedBody | scripts/ting_stub.py:148-175 | under crashes, lost, late and repeated requests the receiver's record of a row holds exactly the bytes persisted with the row |
| Publication.EveryRecordHasOneRow | scripts/ting_stub.py:156-161 | every record belongs to exactly one queued row, so no row is recorded twice |
| Publication.AcceptedRowNamesItsRecord | src/delivery/publisher.rs:48-55 | for every accepted row the receiver holds a record under the row's key, with the id stored with the row and the row's persisted body; no other record has that id or that body |
| Publication.AcceptanceIsFinal | src/infrastructure/postgres/ting.rs:342-371 | over every continuation of a run rows keep what was queued, records their id and body, and accepted rows their acceptance |
| Publication.UnacceptedRowsBecomeDue | src/infrastructure/postgres/ting.rs:261-313 | whatever crashed or failed, an hour later a row can be claimed if and only if it is neither accepted, expired nor retired as a legacy identity |
| Publication.RetiredRowsAreNeverAccepted | scripts/accounts_uuid128.py:153-171 | a row retired by the migration before it was accepted never becomes accepted, even by a publisher that was sending it |
| PublicationHistory.QueuedExactlyOnceAsked | src/infrastructure/postgres/ting.rs:207-254 | a send of an event to a recipient is queued if and only if some request for it came before its expiry |
| PublicationHistory.RowsAreQueuedAsAsked | src/infrastructure/postgres/ting.rs:207-254 | every queued row, and no other, is what the first request in time asked for: its fields, the hook event body under the key of event and recipient, due at once |
| PublicationHistory.RowsStayUntilPurged | migrations/0010_ting_outbox.sql:28-34 | a queued row is stored if and only if its event was not removed |
| PublicationHistory.RetiredExactlyOnceAsked | scripts/accounts_uuid128.py:153-157 | a stored row is retired if and only if the migration retired it |
| PublicationHistory.LeaseLastsExactly | src/infrastructure/postgres/ting.rs:266-371 | a claim is current if and only if three minutes have not passed since it, the row has not expired, and neither a report of its own nor the removal or retirement of the row ended it: no other claim, crash or report does |
| PublicationHistory.UnreportedClaimIsDueAtItsEnd | src/infrastructure/postgres/ting.rs:285-300 | a row whose publisher crashed or hangs can be claimed again exactly from the end of the lease until the row expires |
| PublicationHistory.AttemptsAreClaims | src/infrastructure/postgres/ting.rs:298-303 | the attempts of a row are the number of its claims in the run |
| PublicationHistory.SentExactlyUnderACurrentClaim | src/delivery/publisher.rs:34-47 | a request was sent if and only if some publisher sent the body it had claimed while its claim was current |
| PublicationHistory.AcceptedExactlyByCompletion | src/infrastructure/postgres/ting.rs:343-371 | a stored row is accepted with an id if and only if a publisher that got that id completed the row while its claim was current |
| PublicationHistory.RefusedOnceExactly | scripts/ting_stub.py:148-156 | the receiver has spent its one refusal if and only if a request it was to refuse has come |
| PublicationHistory.RecordedByTheFirstRequest | scripts/ting_stub.py:148-161 | the receiver holds a key if and only if a well-formed request under it came and was not its one refusal, and its record is that of the first |
| PublicationHistory.AnsweredExactly | scripts/ting_stub.py:148-172 | an answer was given if and only if such a request came: it has the id of the key's record, old or new, and the delivery mode of the request |
| PublicationHistory.UndisturbedDeliveryIsAccepted | src/delivery/publisher.rs:34-55 | from every reachable state a due row is claimed, sent, recorded, answered and accepted under the receiver's id, if nobody disturbs the five steps |
| PublicationHistory.FailedSendIsDueAfterItsDelay | src/delivery/publisher.rs:79-92 | after an unanswered or unconfirmed send the row is due exactly from the delay on, an hour at most, until it expires |
| Observers.AtMostOneHundredObservers | src/delivery/subscriptions.rs:103-145 | in every interleaving of statements a Silicon has at most 100 observers |
| Observers.OneSubscriptionPerCarbon | src/delivery/subscriptions.rs:61-76 | a Carbon never has two subscriptions to one Silicon |
| Observers.ObserverLimitIsNeverExceeded | src/delivery/subscriptions.rs:212-217 | the rows an acceptance reads never exceed the limit, so that error branch is unreachable |
| Observers.EnqueueFailsOnlyForARevokedObserver | src/infrastructure/postgres/ting.rs:207-254 | enqueuing a copy succeeds if and only if its subscription still exists; copies of one event never meet at a recipient |
| Observers.EveryObserverGetsExactlyOneCopy | src/delivery/subscriptions.rs:184-241 | an accepted event sent exactly one copy to every eligible subscription standing when it selected, and none began or lost its copy before its commit: a serial order |
| Observers.OutboxHoldsExactlyTheLiveSends | src/delivery/subscriptions.rs:147-170 | the outbox holds exactly the sends of accepted events whose subscription still stands |
| ObserverHistory.StandsExactlyUntilRemoved | src/delivery/subscriptions.rs:103-170 | a subscription stands if and only if the subscribing that inserted it committed and since then neither an unsubscribing of its pair committed nor a change in Accounts removed it |
| ObserverHistory.UnsubscribingEndsThePair | src/delivery/subscriptions.rs:147-170 | after the commit of an unsubscribing the pair has no row, its queued copies are gone, and every other queued send stays |
| ObserverHistory.SubscribingTakesEffect | src/delivery/subscriptions.rs:103-145 | an undisturbed subscribing adds exactly its row, unless the pair has one, a hundred Carbons observe the Silicon, or it asks for itself; then it changes nothing |
| ObserverHistory.UnsubscribingTakesEffect | src/delivery/subscriptions.rs:147-170 | an undisturbed unsubscribing commits, removes its pair and leaves every other row |
| ObserverHistory.AcceptedExactlyOnCommit | src/delivery/subscriptions.rs:184-241 | an event is accepted if and only if the transaction accepting it committed |
| ObserverHistory.AcceptingTakesEffect | src/delivery/subscriptions.rs:184-241 | an undisturbed acceptance enqueues a copy for every row it selected and commits |
| ObserverHistory.EventReachesExactlyTheObservers | src/delivery/subscriptions.rs:184-241 | an accepted event reaches its Silicon and exactly the Carbons that, by the steps before its selection, had subscribed, had not been removed, and still had access and an account |
| IdentityRenaming.ReadMapping | scripts/accounts_uuid128.py:21-46 | accepted if and only if header, rows, uniqueness and chaining are right, and each reason is given exactly for its fault; the mapping holds exactly the rows; a refused row is the first bad one |
| IdentityRenaming.RewriteReplaces | scripts/accounts_uuid128.py:50-66 | rewriting is replacing every string in an identity position by its new name, and nothing else |
| IdentityRenaming.RewriteIsIdempotent | scripts/accounts_uuid128.py:53-66 | rewriting twice is rewriting once, for every JSON value |
| IdentityRenaming.NoSourceRemains | scripts/accounts_uuid128.py:53-66 | no source is left in an identity position at any depth, membership suffixes and typed ids included |
| IdentityRenaming.RewriteRenamesEveryIdentity | scripts/accounts_uuid128.py:53-66 | an identity stands in the new document exactly when one it is the new name of stood in the old one |
| IdentityRenaming.RewriteChangesOnlyIdentities | scripts/accounts_uuid128.py:49-66 | with identities blanked out both documents are equal: shape and every other value are kept |
| IdentityRenaming.RewriteLeavesOthersAlone | scripts/accounts_uuid128.py:228-231 | a document is unchanged, and so not written back, if and only if it holds no source |
| IdentityRenaming.InverseUndoesRewrite | scripts/accounts_uuid128.py:53-66 | the inverse mapping restores the document if and only if no target stood in it before |
| IdentityRenaming.ReplaceComposes | scripts/accounts_uuid128.py:53-66 | two replacements in a row are one, so typed objects and membership ids keep their role when rewritten |
| IdentityRenaming.UpdateColumn | scripts/accounts_uuid128.py:219-223 | in place, every cell that names a source names its target and no other changes; the count returned is that of the changed rows |
| IdentityRenaming.ForeignKeysSurvive | scripts/accounts_uuid128.py:219-223 | renaming both columns keeps every reference |
| IdentityRenaming.UniquenessSurvives | scripts/accounts_uuid128.py:219-223 | a unique column stays unique if and only if it never holds a source beside its own target |
| RenamingSamples.SoleIdentitiesAreRenamedExactly | scripts/accounts_uuid128.py:50-69 | alone in an object, a mapped identity is renamed under fifteen names exactly |
| RenamingSamples.DescribedIdsAreRenamedExactly | scripts/accounts_uuid128.py:59-63 | beside a type or kind, a member named `id` is renamed too if and only if that says Carbon or Silicon |
| RenamingSamples.TypeComesBeforeKind | scripts/accounts_uuid128.py:59-63 | where both are present the type decides and the kind does not |
| RenamingSamples.MembershipsKeepTheirApp | scripts/accounts_uuid128.py:64-66 | a membership keeps everything up to its first colon, and the rest is renamed if and only if it is mapped; without a colon it stays |
| RenamingSamples.OnlyIdentityFieldsChange | scripts/test_accounts_uuid128.py:36-42 | in a document that holds one identity in seven places only the actor's uuid, the membership and the typed participant change |
| RenamingSamples.TargetsAreVersionFour | scripts/accounts_uuid128.py:33-38 | a hyphenated text is a valid target if and only if its five groups are lowercase hexadecimal, the version is 4 and the variant that of RFC 4122 |
| RenamingSamples.SourcesAreBetween | scripts/accounts_uuid128.py:31-32 | letters and digits make a valid source, and white space, a colon, a comma or a slash anywhere spoils it |
| RenamingSamples.RowsAreRefusedInOrder | scripts/accounts_uuid128.py:28-40 | one row by itself is refused for its number of fields, its source, its target, its kind or mapping to itself, in this order |
| IdentityMigration.Store.Migrate | scripts/accounts_uuid128.py:184-255 | the checks, run as the script runs them, refuse exactly what is specified and then change nothing; otherwise every listed column, document and the ledger are as specified, accounts keep their primary key, and "unmigrated identity remains" is unreachable |
| IdentityMigration.Store.CheckLedger | scripts/accounts_uuid128.py:184-189 | refuses if and only if an applied renaming is contradicted, or else a target belongs to another one |
| IdentityMigration.Store.CheckAccounts | scripts/accounts_uuid128.py:196-202 | looking up sources and targets refuses if and only if some account has the wrong kind or stands where another must move to |
| IdentityMigration.NothingRemains | scripts/accounts_uuid128.py:250-255 | no source is left among accounts, listed columns or identity positions |
| IdentityMigration.AccountsStayApart | scripts/accounts_uuid128.py:191-202 | accounts never merge, and afterwards each has a canonical UUID |
| IdentityMigration.UniqueKeysSurvive | scripts/accounts_uuid128.py:196-202 | any unique key over identity columns that name known accounts survives an accepted mapping |
| IdentityMigration.LedgerStaysInjective | scripts/accounts_uuid128.py:184-189 | the ledger keeps its entries, gains the mapping's, and names no target twice |
| IdentityMigration.LedgerStaysChainFreeExactly | scripts/accounts_uuid128.py:184-189 | the ledger stays free of chains if and only if the mapping links up with it at neither end |
| IdentityMigration.NobodyIsLockedOutExactly | src/application/access.rs:139-155 | a migration leaves an account whose tokens are refused for good if and only if it moves it to an identity that was migrated away before |
| IdentityMigration.ChainedMappingIsAccepted | scripts/accounts_uuid128.py:184-202 | such a mapping passes every check |
| IdentityMigration.SecondRunChangesNothing | scripts/accounts_uuid128.py:181-255 | the same mapping is accepted again and then changes nothing |
| IdentityMigration.AcceptedExactly | scripts/accounts_uuid128.py:184-202 | a migration goes ahead if and only if every account is mapped or canonical, mapped accounts have the mapped kind (or none, where that is allowed), targets are taken only by the same renaming applied before, and the ledger is repeated or left alone |
| IdentityMigration.OnlyMappedIdentitiesMove | scripts/accounts_uuid128.py:219-223 | accounts keep their order and kind and columns their cells: an identity changes exactly where it is mapped |
| Base64Url.TextIsCanonical | src/infrastructure/crypto.rs:61-68 | a text decodes to bytes if and only if it is their encoding: trailing bits must be zero and there is one text per byte string |
| Base64Url.KeysHaveOneText | src/infrastructure/crypto.rs:56-71 | a key is accepted exactly in its one 32-byte encoding; the re-encoding check refuses nothing more |
| Base64Url.ShortKeysAreInvalidLength | src/infrastructure/crypto.rs:61-67 | canonical text is a bad length exactly when it holds fewer than 32 bytes |
| Base64Url.SymbolsFollowTheTable | src/infrastructure/crypto.rs:61-68 | the symbol of each value is that of table 2 of RFC 4648, and is read back as it |
| Base64Url.GroupsAreTheSame24Bits | src/infrastructure/crypto.rs:61-68 | every three bytes and their four symbols are one number of 24 bits, with zeros for what is missing at the end |
| CursorCodec.PrintedClaimsReadBack | src/infrastructure/crypto.rs:332-338 | the printed claims can be read back, for every scope, collection, filter, time and id |
| CursorCodec.CursorsReadBack | src/infrastructure/crypto.rs:354-416 | every cursor Hook issues has at most 2,048 bytes, and decodes to its boundary if and only if the time is representable |
| CursorCodec.OtherScopesRefuse | src/infrastructure/crypto.rs:410-412 | an issued cursor is a scope mismatch under every other scope and only there |
| CursorCodec.AcceptedExactlyWhenAuthentic | src/infrastructure/crypto.rs:380-416 | a text is accepted exactly when it is the encoding of a payload with its right tag whose claims have the version, the scope and the boundary |
| CursorCodec.OnlyIssuedCursorsAreAccepted | src/infrastructure/crypto.rs:380-416 | with unforged tags the only text accepted for a boundary under a scope is the one issued for both |
| CursorCodec.PayloadIsShort | src/domain/account.rs:26-60 | the 64-byte bound on account uuids keeps every payload below 1,000 bytes |
| CursorText.ClaimsArePrintedExactly | src/infrastructure/crypto.rs:327-369 | the printed claims are one JSON text, given field by field with its quotation marks, for all claims |
| CursorCodec.EncodingIsRefusedExactly | src/infrastructure/crypto.rs:385-400 | a text is too long exactly above 2,048 bytes, and otherwise a bad encoding exactly when it encodes no payload followed by 32 bytes |
| CursorCodec.ClaimsAreReadExactlyWhenAuthentic | src/infrastructure/crypto.rs:400-416 | claims are looked at exactly when the 32 bytes are the tag of the payload; then unreadable claims, another version, another scope and a time out of range are refused in this order, and nothing else is |
| HookLifecycle.EveryRunIsConsistent | src/domain/hook.rs:634-660 | every hook reachable by any transitions, refused ones included, can be rehydrated and keeps its id, creator and creation time |
| HookLifecycle.LastTimesAreTheLatest | src/domain/hook.rs:969-985 | last received and last blocked are the maximum recorded in the run, in any order |
| HookLifecycle.RestorableExactlyWhileRetained | src/domain/hook.rs:877-901 | restoring succeeds if and only if the hook is deleted, since not after now, and retained now |
| HookLifecycle.DeadlinesAgree | src/application/hooks.rs:307-316 | the application's deadline, the aggregate's and retention agree; the purge agrees exactly when the deadline does not pass the last instant, or is over |
| HookLifecycle.RestoreUndoesDelete | src/domain/hook.rs:845-901 | a restore in time gives back the hook as it was, except enabled |
| HookLifecycle.EnableUndoesDisable | src/domain/hook.rs:794-838 | disabling any reachable active hook and enabling it no earlier are both accepted and leave no trace |
| HookLifecycle.DisabledSinceTheFirstTime | src/domain/hook.rs:787-838 | over any stretch of a run without an accepted enabling, deletion or restore, a disabled hook keeps the instant at which it first was, however often it is disabled again |
| HookLifecycle.KeysChangeByRotation | src/domain/hook.rs:925-942 | in every run the key and the rotation time are those of the last accepted rotation, and those of the creation exactly when none was accepted |
| HookLifecycle.DeletedHooksAreFrozen | src/domain/hook.rs:787-985 | over any stretch of a run, from a deletion until a restore is accepted, nothing changes the hook but the times of its requests |
| HookLifecycle.DeletedExactlyUntilRestored | src/domain/hook.rs:845-901 | a deleted hook is deleted at every later moment of a run if and only if no restore is accepted |
| HookLifecycle.StatusIsTheLastChange | src/domain/hook.rs:787-901 | in every run the status, and the time of deletion, are what the last accepted disabling, enabling, deletion or restore says; a hook without one is active |
| HookLifecycle.DisabledSinceTheFirstDisabling | src/domain/hook.rs:794-812 | a disabling accepted while the hook was active leaves it disabled since that instant until an enabling, deletion or restore is accepted |
| HookLifecycle.NamesAreTheLast | src/domain/hook.rs:949-965 | the name is that of the last accepted update that names one, else that of the creation |
| HookLifecycle.DescriptionsAreTheLast | src/domain/hook.rs:949-965 | the same of the description, whether set or cleared |
| HookLifecycle.TimeZonesAreTheLast | src/domain/hook.rs:949-965 | the same of the time zone |
| HookLifecycle.SigningIsTheLast | src/domain/hook.rs:907-965 | the signing policy is that of the last accepted update of it; the secret that of such an update or of a later accepted rotation of the secret |
| HookLifecycle.AcceptedExactly | src/domain/hook.rs:794-985 | apart from restores a transition is refused if and only if a deletion is in force or it comes before the creation or the disabling it ends, with the error that says which; records are never refused |
| HookLifecycle.ReadableHooksAreReachable | src/domain/hook.rs:634-660 | with EveryRunIsConsistent: the checks on a persisted hook accept exactly the hooks that some creation and some transitions leave |
| RandomKeys.RandomString | src/domain/hook.rs:115-135 | the i-th character is the letter at the remainder of the i-th byte below the limit, wherever the 64-byte chunks end; an error exactly when the source runs dry before `length` such bytes |
| RandomKeys.EverySymbolIsEquallyLikely | src/domain/hook.rs:116-119 | every symbol of an alphabet of n <= 256 owns exactly 256 / n byte values |
| RandomKeys.GenerateKey | src/domain/hook.rs:49-54 | a generated key spells the first eight bytes below 252 in the 36-letter alphabet, and parses to itself |
| RandomKeys.KeysIgnoreCase | src/domain/hook.rs:62-72 | parsing is idempotent, and two texts give one key exactly when they differ in case only |
| RandomKeys.EveryLetterIsEquallyLikely | src/domain/hook.rs:116-129 | every letter of an alphabet of n <= 256 distinct letters is drawn by exactly 256 / n byte values |
| RandomKeys.LimitIsTheLargestMultiple | src/domain/hook.rs:117-119 | the limit is the largest multiple of the alphabet's size that fits in a byte |
| RandomKeys.AcceptedAreTheBytesBelow | src/domain/hook.rs:124-128 | the bytes used are exactly those below the limit, each once and in order |
| RandomKeys.StreamIsTheChunks | src/domain/hook.rs:121-124 | the bytes looked at are the 64-byte chunks end to end |
| RandomKeys.KeyAlphabetIs | src/domain/hook.rs:27 | the key alphabet is the 26 capitals and the ten digits, in order |
| EndpointKeys.Namespace.CreateHook | src/application/hooks.rs:612-679 | the loop's result and the store equal the specified search over 16 candidates |
| EndpointKeys.Namespace.RotateHookEndpoint | src/application/hooks.rs:501-528 | the loop's result and the store equal the specified search over 16 candidates |
| EndpointKeys.CreationTakesTheFirstUnusedKey | src/application/hooks.rs:612-679 | the first candidate never used before is committed; if all collide or randomness fails, the store is unchanged |
| EndpointKeys.RotationRetiresTheOldKey | src/infrastructure/postgres/hooks.rs:532-603 | a rotation takes the first unused key and retires exactly the hook's old one; a deleted hook is refused |
| EndpointKeys.KeysStayApart | src/infrastructure/postgres/hooks.rs:776-796 | over every run of operations current keys are distinct and none is retired |
| EndpointKeys.RetiredKeysNeverReturn | src/infrastructure/postgres/hooks.rs:776-796 | a key retired at any point of a run belongs to no hook from then on |
| EndpointKeys.PurgedKeysAreFreeUntilDrawn | src/infrastructure/postgres/maintenance.rs:125-135 | in every run the last key of a purged hook was never retired: it belongs to nobody until an operation draws it again |
| EndpointKeys.CurrentKeysStayDistinct | migrations/0019_accounts_identity.sql:39-42 | however checks, index writes, commits, deletions, restores and purges interleave, no two hooks share a key, and none will when the writes commit |
| EndpointKeys.CommitRevivesExactlyAKeyRetiredSinceItsCheck | src/infrastructure/postgres/hooks.rs:776-796 | every open transaction checked its key unused at a step the lemma names; its commit makes a retired key current if and only if the key was retired between that step and the commit |
| EndpointKeys.KeysStayApartExactlyWhenNothingRevives | src/infrastructure/postgres/hooks.rs:532-603 | over whole runs: current and retired keys are apart at every moment if and only if no commit enters a key retired by then |
| EndpointKeys.CreationsForOneSiliconNeverOverlap | src/infrastructure/postgres/hooks.rs:746-757 | at most one creation for a Silicon is open at a time |
| EndpointKeys.RetiredKeyCanReturn | src/infrastructure/postgres/hooks.rs:776-796 | three overlapping transactions, two of them for different Silicons' hooks, after which a retired key routes to a hook |
| EndpointHistory.HoldsExactlyTheLastGiven | src/infrastructure/postgres/hooks.rs:532-603 | over every run of operations a hook holds a key if and only if the last creation or rotation that gave it one gave it this, and it was not purged since |
| EndpointHistory.RetiredExactlyByRotation | src/infrastructure/postgres/hooks.rs:532-603 | a key is retired if and only if some rotation replaced it |
| EndpointHistory.DeletedExactlyUntilRestoredOrPurged | src/infrastructure/postgres/maintenance.rs:125-135 | a hook is deleted if and only if a deletion found it and it was neither restored nor purged since |
| EndpointHistory.HoldsExactlyTheLastCommitted | src/infrastructure/postgres/hooks.rs:532-603 | however transactions overlap, a hook holds the key of the last commit for it, until it is purged |
| EndpointHistory.RetiredExactlyByCommittedRotation | src/infrastructure/postgres/hooks.rs:532-603 | however transactions overlap, a key is retired if and only if a rotation away from it committed |
| EndpointHistory.OpenExactlySinceItsCheck | src/infrastructure/postgres/hooks.rs:776-796 | a transaction is open, with the hook and key it checked, from its check until it commits, aborts, or its write breaks a unique index |
| Strikes.IpBlockState.Withhold | src/application/ingress.rs:61-71 | a request is counted exactly when the check at its instant allowed it |
| Strikes.StrikesAreConserved | src/domain/safety.rs:62-76 | in every run recorded requests = 20 * blocks + strikes, with strikes < 20 |
| Strikes.AtMostTwentyADay | src/domain/safety.rs:49-76 | under check-then-record any one-day window holds at most 20 records |
| Strikes.BlocksAreADayApart | src/domain/safety.rs:49-76 | under check-then-record block starts are at least a day apart |
| Strikes.UncheckedRecordsAreUnbounded | src/domain/safety.rs:62-76 | without the check any number of records fits in one instant, with a block for every twenty |
| Strikes.BlockedExactlyForADay | src/domain/safety.rs:49-76 | after any run of records in order of time a request is let in if and only if no block has begun or the last one began a day ago or more, and is told that end otherwise |
| Strikes.EveryTwentiethBlocks | src/domain/safety.rs:62-76 | in any run every twentieth record begins a block of one day, and the others are counted up to it |
| Maintenance.RunMaintenanceCycle | src/worker/maintenance.rs:24-61 | the order of batches is the specified schedule, each total the (saturated) rows of the batches the task would run alone, with the failures and the limit flag |
| Maintenance.GotInSchedule | src/worker/maintenance.rs:28-57 | in the schedule each task gets exactly the batches it would get alone |
| Maintenance.BatchesUntilTheEnd | src/worker/maintenance.rs:35-49 | alone, a task runs until its first "no more work" or failure, or the round limit |
| Maintenance.NoActiveTaskFallsBehind | src/worker/maintenance.rs:28-57 | at every moment of a cycle a task with work left is at most one batch behind any other |
| Maintenance.TasksAreIndependent | src/worker/maintenance.rs:35-49 | in the schedule of all tasks together, one gets as many batches and adds up as many rows whatever the store answers to the others, failures included |
| Maintenance.BatchRunsExactlyWhileMoreWork | src/worker/maintenance.rs:28-49 | the k-th batch of a task runs if and only if there are that many rounds and every answer before it said there was more |
| Maintenance.RowsFollowEveryBatch | src/worker/maintenance.rs:35-49 | a total is zero where every batch failed, and changes with any single batch by exactly the rows that batch changes by |
| Maintenance.FailuresAreTheFailedTasks | src/worker/maintenance.rs:50-57 | the failures reported are the number of different tasks that had a batch fail |
| Maintenance.RoundsAreInOrder | src/worker/maintenance.rs:28-34 | each round gives one batch to exactly the tasks with work left, in their order |
| Redaction.RedactIsIdempotent | src/domain/request.rs:139-156 | redacting JSON twice is redacting it once |
| Redaction.CredentialsAreMarked | src/domain/request.rs:139-156 | at any depth the value at the first sensitive key of a path is the mark |
| Redaction.OtherPathsAreKept | src/domain/request.rs:139-156 | a path that passes no sensitive key leads to the same place and the same scalar |
| Redaction.RedactKeepsExactlyTheClean | src/domain/request.rs:162-167 | JSON is unchanged if and only if it holds no credential |
| Redaction.CapturedRequest.RemoveCredentials | src/domain/request.rs:120-191 | in place, headers, body, query and parsed copies become exactly the specified ones |
| Redaction.BodyIsReplacedExactlyForCredentials | src/domain/request.rs:162-173 | the body is replaced and `content-length` dropped if and only if the JSON held a credential |
| Redaction.NoCredentialIsLeft | src/domain/request.rs:120-191 | afterwards no header, query value or JSON value under a sensitive name holds anything but the mark |
| Redaction.RemovalIsIdempotent | src/domain/request.rs:120-191 | removing credentials twice is removing them once |
| Redaction.JsonIsAlwaysCurrent | src/domain/request.rs:162-173 | over the whole life of a request, bodies parsed on demand and credentials removed in any order, a parsed copy of the JSON never outlives the body |
| Redaction.FormIsCurrentExactly | src/domain/request.rs:162-190 | over the whole life of a request its parsed form is that of its body if and only if no removal met a parsed form whose redacted body reads differently |
| Redaction.FormStaysCurrentOutsideTheGuard | src/domain/request.rs:162-190 | the parsed form stays that of the body whenever no form was parsed, the media type is not a form, the query has a sensitive name, or the body holds no JSON credential |
| Redaction.FormGoesStaleExactly | src/domain/request.rs:162-190 | it goes stale if and only if a parsed form, a form media type, no sensitive query name and a JSON credential meet, and the redacted body reads as another form |
| Redaction.ParsedFormCanKeepACredential | src/domain/request.rs:164-190 | a JSON body sent as a form, under formats that meet every assumption: its parsed form still holds the credential |
| Redaction.SampleFormatsAreFaithful | src/domain/request.rs:159-189 | formats that meet the assumptions of the request lemmas exist |
| Redaction.SensitiveExactlyInAnyCase | src/domain/request.rs:121-138 | thirteen names are sensitive, however they are capitalized, and no other is |
| Redaction.NamesAreKept | src/domain/request.rs:139-156 | past no credential an object keeps its names and an array its length |
| Redaction.EverythingElseIsKept | src/domain/request.rs:157-189 | every header but the length keeps its values in order and every query pair its place and name; only values under sensitive names change, to the mark |

## Left out

* SignOut: tokens without an issue time, whose issue time the code estimates from their expiry, are not modelled.
* SignOut: token texts stand for their SHA-256 digests, so two tokens never share an entry.
* KeySet: token verification, key ids and the content of a key set; a set is told apart by identity.
* SendRuns: the receipt and enrolment calls use their own caches of the same kind and are not repeated.
* Publication: the kind of a failure and the delay it leads to are arbitrary, up to the hour the code allows.
* Publication: publishers and the database read one clock; bytes are compared by the fields the receiver keeps.
* Publication: the renaming of recipients by a migration; a row's recipient and body stay as enqueued, and the migration
  only retires rows.
* Publication: the receiver is the repository's stub; Ting itself is not part of this model.
* Observers: two Silicons whose advisory-lock hashes collide block each other; that only removes schedules.
* Observers: HTTP authorization before subscribing, and the content of the copies.
* IdentityRenaming.ReadMapping: an unreadable target and a target that is not canonical are one reason.
* IdentityMigration: what the script does for other applications (placeholder accounts, sealed secrets, retired
  deliveries), expired rows, triggers and constraint toggling; each listed column is a sequence of cells.
* Base64Url: the decoder's choice among its own error kinds; they are one error to Hook.
* CursorCodec: serde's reader accepts more texts than the printed ones; the codec's lemmas hold for every reader that
  reads printed payloads back.
* HookLifecycle: validation of names, descriptions, time zones and signing policies.
* EndpointKeys: the idempotent replay of a command, the limit of hooks per Silicon, and audit rows.
* Strikes: concurrent requests of one address, whose checks and records the store serializes separately; the purge of
  stale block rows.
* Maintenance: the contract-status query before a cycle, logging, and rows that become eligible during a cycle.
* Redaction: multipart bodies and the parsing of URLs, forms and JSON text.
* AES-GCM sealing of secrets, the signature expression language, webhooks from Accounts, routing, configuration and
  deployment are not modelled.
