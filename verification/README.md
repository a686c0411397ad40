# Verified model of the PID backend's stateful protocols

The backend turns uploaded engineering drawings into reviewable symbols. Little of it is
algorithmic; what is hard about it is what its small protocols keep over whole runs, with
workers dying between two commits, jobs delivered twice, Redis commands lost and requests
overlapping. This project models those protocols in Dafny 4.11 and proves what they keep.
`dafny verify dfyconfig.toml` checks all of it.

## How it is built

* `Database.dfy` holds the tables as one value and a `Session` class with a `committed` and a
  `pending` copy. A commit either makes the pending tables the committed ones or, when the
  server is unreachable or a constraint is violated, rolls everything back; and it may be executed
  without its answer arriving.
* Code that changes state is a method on such an object. Its `ensures` equates the new state (and
  the outcome) with a function of the old state, and a lemma (`...KeepsPolicy`, `...Means`) says of that
  function, in terms of the inputs alone, when each outcome occurs and what it leaves. Clocks, network
  answers, failures and crash points are parameters, so a contract covers every combination of them.
* Runs are sequences of events folded by those same functions; the `...Runs`, `Lifecycle`, `Overlaps`,
  `ErasedAddresses`, `ErasureInterleaved` and `LockoutConcurrent` modules prove theorems about all runs.
* Code that only computes a value (`buildPath`, the partition arithmetic, the backoff) is functions
  and lemmas.

## What is proved

* **Erasure** (`Erasure`, `ErasureRuns`, `ErasureInterleaved`). The tables after any serial run of purge
  attempts, with crashes around either commit and changing secrets, are a closed form of where
  the run started, which id was committed first for each user, and who was erased. Ids never
  change, attempts converge, and further ones do nothing. Interleaved attempts keep this
  exactly when the secrets in use agree.
* **Account lifecycle** (`Accounts`, `Profile`, `Revocation`, `Scanner`, `Lifecycle`, `Overlaps`,
  `ErasedAddresses`). Over every run of sign-ups, profile updates, deletions and resets that may overlap, scans
  and (duplicated, redelivered) erasure jobs: one subscription per user, deleted accounts stay
  deleted, and no purge before 30 days have passed. A deletion time is committed once per account,
  and revoked tokens stay rejected, exactly when the deletions and resets of one account do not
  overlap. The unique address constraint blocks a purge exactly when an erased account's id starts
  like the new one's or an account's chosen address is that very placeholder.
* **Login lockout** (`Lockout`, `LockoutRuns`, `LockoutConcurrent`). Any Redis command may be lost, or
  executed with its answer lost. The non-sliding counter still allows at most 9 counted failures
  in any 15 minutes, and that bound is reached; a lockout never ends exactly when the login that opened
  the counter did not get its EXPIRE executed; with n overlapping attempts a counter reaches 4 + n
  and no more.
* **Corrections** (`Consents`, `Corrections`, `CorrectionRuns`, `SymbolPages`). The log replays to the
  symbols, consent is a snapshot, the review state is a function of the log, and the paged,
  batched read is the unpaged, per-symbol one.
* **Analytics queue** (`DeadLetter`, `DeadLetterRuns`). Every event is in exactly one place; a drain during
  which events keep arriving visits each entry once if no write drops an entry meanwhile, and no
  entry twice exactly when none could.
* **Scan worker** (`ScanWorker`). Commit, publish, enqueue: each at most once and in that order.
* **Path templates, audit partitions, e-mail retries** (`Endpoints`, `Partitions`, `Notification`).

## Where the code and its documentation disagree

The model follows the code.

* The erasure scan says "at least 30 days" (`backend/app/workers/gdpr/tasks.py:79`); the query is strict
  (`ThirtyDaysAreNotEnough`).
* Account deletion enqueues a task name (`backend/app/services/gdpr_init_service.py:46`) that no worker
  registers; erasure jobs therefore come from the scan alone.
* `backend/app/services/consent_service.py:3-7` says corrections import its resolution. They resolve for
  themselves and ignore the owner's team record; `ResolutionsDifferIff` says when this shows.
* `backend/app/auth/brute_force.py:18-21` says failures are only cleared below the threshold. That holds
  exactly for logins that do not overlap (`ClearsAreGuardedIffSerial`).
* `backend/app/auth/brute_force.py:6-8` gives the counter 900 seconds to live. If the EXPIRE of the failure
  that opened it is not executed, and only then, a lockout never ends
  (`LockedForeverIffOpenerLostExpire`, `OneLostExpireLocksForever`); the rejected login is then told
  to retry after 0 seconds (`RetryAfterIsRemaining`).
* Every erased user is said to get a distinct address (`backend/app/workers/gdpr/anonymizer.py:37-40`).
  `PurgeBlockedIff` says when another row holds it, and `BlockedUntilAddressChanges` is such a run.
* Erasure is said to be enqueued exactly once per account (`backend/app/services/gdpr_init_service.py:69-71`), without
  committing the timestamps again. The row is loaded without a lock: that holds exactly when the
  requests of an account do not overlap (`DeletesOnceIffSerial`).
* Every token from before a password reset is said to be rejected (`backend/app/services/password_reset.py:104-105`). Of
  two overlapping resets the one that read its clock first can commit last and take the other's
  invalidation back (`RevocationIsPermanentIffSerial`).
* `backend/app/analytics/dead_letter.py:71-74` says a drain processes each entry at most once per call. A trim by a
  concurrent emit breaks that; `NeverTwiceIffRoom` gives the exact condition.
* A token issued after a password reset but in the same second is rejected
  (`AcceptedIffIssuedInALaterSecond`).
* A clean scan does not always lead to an ML job: if the delivery that commits Processing dies before the
  enqueue, no redelivery makes up for it (`EnqueuedIffCommittingDeliveryFinished`).
* The e-mail worker documents retries for 5xx and transport errors; its code retries every failure
  that is not a 4xx (`RedirectsAreRetried`).
* December 9999 has no partition bounds: the end date cannot be represented (`BoundsExistIff`).

## Model

| member | source | states |
|---|---|---|
| Erasure.EnsureAnonymousId | backend/app/workers/gdpr/anonymizer.py:81-104 | A stored id is returned and nothing changes; a missing one is derived from the current secret and committed alone; an unknown user, an empty secret or a crash before the commit changes nothing |
| Erasure.EraseRows | backend/app/workers/gdpr/anonymizer.py:123-148 | User, audit and consent rows change together or, on a crash before the commit or a taken address, not at all |
| Erasure.PurgeUserPii | backend/app/workers/gdpr/anonymizer.py:107-148 | Both transactions in order, for every crash point around either commit |
| Erasure.PurgeCommitsIffAddressFree | backend/app/workers/gdpr/anonymizer.py:128-148 | The only constraint the purge can violate is the unique address, and it does so exactly when another row already holds the erased address |
| ErasureRuns.UninterruptedAttempt | backend/app/workers/gdpr/anonymizer.py:107-148 | An uninterrupted purge completes exactly when the user exists, an id can be had and the erased address is free; it leaves the purge with that id |
| ErasureRuns.AttemptKeepsOutcome | backend/app/workers/gdpr/anonymizer.py:107-148 | When each outcome of an attempt occurs, whatever interrupts it: unknown user, no id and no secret, another row with the address "erased_" + first 16 characters of the id + "@erased.invalid", crashed, completed |
| ErasureRuns.SamePlaceholderIff | backend/app/workers/gdpr/anonymizer.py:71-73 | Two ids give the same address exactly when they agree on their first 16 characters |
| ErasureRuns.SixteenthCharacterDecides | backend/app/workers/gdpr/anonymizer.py:40 | Of two users whose ids agree on 15 characters the second can be erased after the first if and only if the sixteenth differs |
| ErasureRuns.ErasureRemovesPersonalData | backend/app/workers/gdpr/anonymizer.py:128-148 | Field by field what a committed purge leaves: placeholder address and name, no password flag, no audit or consent row of the user, deletion and invalidation times kept, all other rows of every table untouched |
| ErasureRuns.NothingErasedBeforeIdStored | backend/app/workers/gdpr/anonymizer.py:110-121 | An attempt that does not commit its purge changes at most the id, which is thus always committed before any personal data goes |
| ErasureRuns.RunIsClosed | backend/app/workers/gdpr/anonymizer.py:81-148 | The tables after any run depend only on the start, the ids committed first and the users erased, not on order, number, crashes or secrets of the attempts |
| ErasureRuns.AnonymousIdNeverChanges | backend/app/workers/gdpr/anonymizer.py:96-104 | Once committed, an id is the same at every later point of every serial run, whatever the secret becomes |
| ErasureRuns.ErasureConverges | backend/app/workers/gdpr/anonymizer.py:107-148 | After any run with a committed purge, the user's rows are those of one uninterrupted purge with the first stored id, and further attempts change nothing |
| ErasureInterleaved.InterleavedRunIsClosed | backend/app/workers/gdpr/anonymizer.py:92-148 | With agreeing secrets every interleaving of load, first commit and second commit leaves the closed form of a serial run |
| ErasureInterleaved.InterleavedErasureConverges | backend/app/workers/gdpr/anonymizer.py:92-148 | After any worker's committed purge the user's rows are, and stay, those of one uninterrupted purge |
| ErasureInterleaved.UninterruptedMoves | backend/app/workers/gdpr/anonymizer.py:92-148 | Load and both commits of one worker with nothing in between leave what one uninterrupted attempt leaves |
| ErasureInterleaved.DifferentSecretsRace | backend/app/workers/gdpr/anonymizer.py:96-104 | Two workers with different digests can overwrite a committed id |
| ErasureInterleaved.IdsStableIffSecretsAgree | backend/app/workers/gdpr/anonymizer.py:96-104 | Interleaved attempts keep every committed id if and only if the secrets they run with give the same digests |
| Accounts.WriteAudit | backend/app/services/auth_service.py:346-371 | The audit row is appended, or its failure is swallowed and nothing changes |
| Accounts.Insert | backend/app/services/auth_service.py:410-418 | User and subscription are inserted together, exactly when no key and no address is taken and the commit is executed; otherwise neither is |
| Accounts.ActiveUserIsUnique | backend/app/services/auth_service.py:320-324 | At most one row answers to an active address, so the lookup that expects one or none never finds two |
| Accounts.RegisterUser | backend/app/services/auth_service.py:374-442 | Outcome and tables of a registration for every answer of the signup call, a missing or malformed user id included, and every failing insert; a commit whose answer is lost included; the verification e-mail is queued only after an answered commit, and failing to do so fails nothing |
| Accounts.RegisterKeepsPolicy | backend/app/services/auth_service.py:382-428 | When each outcome of a registration occurs; it adds its unverified user and a free, active subscription or changes nothing |
| Accounts.OauthGoogle | backend/app/services/auth_service.py:498-557 | Outcome and tables of a Google sign-in for every token and every failing or unanswered insert |
| Accounts.OauthKeepsPolicy | backend/app/services/auth_service.py:507-557 | When each outcome of a Google sign-in occurs; a new address gets a verified account without the password flag, a subscription and, after an answered commit, an audit entry; nothing else changes |
| Accounts.RegistrationSucceedsIffAddressUnheld | backend/app/services/auth_service.py:382-418 | A signup gives exactly the new user and free subscription when no row holds the address; a soft-deleted row not yet purged blocks it |
| Accounts.OauthNeverTouchesPasswordAccounts | backend/app/services/auth_service.py:517-557 | No existing row is changed; a session is only opened for an active row without the password flag; an address with the flag always asks for linking |
| Accounts.InsertKeepsOneSubscriptionEach | backend/app/services/auth_service.py:404-418 | Inserting an account keeps users and subscriptions paired one to one |
| Revocation.InitiateAccountDeletion | backend/app/services/gdpr_init_service.py:66-130 | Both timestamps in one commit; sign-out, cache and enqueue only after its answer; nothing for unknown or already deleted users |
| Revocation.DeletionIsAtomic | backend/app/services/gdpr_init_service.py:73-86 | Both times are the moment of the deletion or neither changes; a second deletion is without effect |
| Revocation.ConfirmReset | backend/app/services/password_reset.py:77-112 | The invalidation time is stored only after revocation succeeded; each failure has its outcome and, unless only the answer of the commit is lost, leaves it untouched |
| Revocation.ResetKeepsPolicy | backend/app/services/password_reset.py:87-112 | When each outcome of a reset occurs; without a recovered user or with the sign-out failed nothing is written; otherwise one account's time and, once confirmed, one audit entry |
| Revocation.AuthenticatedIff | backend/app/auth/middleware.py:87-121 | A request is let in exactly with a verified token that names an existing account, not deleted, and was issued, to the whole second, no earlier than its invalidation |
| Revocation.AcceptedIffIssuedInALaterSecond | backend/app/auth/middleware.py:111-121 | A token of a live account is accepted exactly when its whole issue second is not before the invalidation rounded up; so earlier tokens never are and tokens a second later always are |
| Revocation.FreshTokenRejectedInSameSecond | backend/app/auth/middleware.py:117-121 | A token issued after the reset in the same second is rejected |
| Profile.PatchAccount | backend/app/api/routers/account.py:103-116 | An authenticated update changes the row of its caller, or nothing when the commit is not executed or another row holds the address |
| Profile.ProfileUpdateIsConfined | backend/app/services/account_service.py:30-49 | Only name, address and the verified flag of one account that is not deleted can change, and an address marked verified is one that was; without an address in the request only the server can fail it |
| Scanner.SelectEligible | backend/app/workers/gdpr/tasks.py:94-104 | Exactly the users deleted strictly more than 30 days ago, each once |
| Scanner.ScanAndDispatch | backend/app/workers/gdpr/tasks.py:78-109 | One job per eligible user is appended, or those before the broker failed |
| Scanner.ThirtyDaysAreNotEnough | backend/app/workers/gdpr/tasks.py:94-104 | An account deleted exactly 30 days ago is not selected; one microsecond later it is |
| Scanner.EnumerationsAgree | backend/app/workers/gdpr/tasks.py:95-106 | The jobs a scan dispatches do not depend on the order of the query, up to order |
| Lifecycle.UninterruptedDeletion | backend/app/services/gdpr_init_service.py:75-86 | Load and commit of a deletion with nothing in between are the deletion endpoint on its own |
| Lifecycle.UninterruptedReset | backend/app/services/password_reset.py:106-110 | The same for a reset |
| Lifecycle.ScanQueues | backend/app/workers/gdpr/tasks.py:94-109 | In a run a scan queues every due user once, or those before the broker failed |
| Lifecycle.RunSound | backend/app/workers/gdpr/tasks.py:61-109 | Every run, overlapping deletions and resets included, keeps the tables consistent, removes no user, undeletes none, stores no time that was not committed, and queues and purges only users for whom a deletion time past the delay was committed |
| Lifecycle.AccountsStayPaired | backend/app/services/auth_service.py:404-418 | In every reachable state users and subscriptions are paired one to one and addresses distinct |
| Lifecycle.ThirtyDaySafety | backend/app/workers/gdpr/tasks.py:94-106 | However deletions overlap, any purge that commits belongs to a deleted user for whom a deletion time strictly more than 30 days before was committed, and the user stays deleted |
| Lifecycle.DeletionIsFinal | backend/app/auth/middleware.py:113-115 | After a committed deletion no token authenticates as that user at any later moment of any run |
| Overlaps.DeletesOnceIffSerial | backend/app/services/gdpr_init_service.py:69-86 | With at most n deletions and resets open per account, every account commits one deletion time (and so reaches its enqueue at most once) and keeps it, if and only if n is at most 1 |
| Overlaps.PurgeGoesByTheDeletion | backend/app/workers/gdpr/tasks.py:94-106 | When such requests do not overlap, a purge goes by the one deletion time stored for the user, more than 30 days ago, which never changes |
| Overlaps.RevocationIsPermanentIffSerial | backend/app/services/password_reset.py:104-110 | With at most n deletions and resets open per account, a token really issued before a stored invalidation is rejected at every later moment of every run, if and only if n is at most 1 |
| ErasedAddresses.RunKeepsAddressesKnown | backend/app/workers/gdpr/anonymizer.py:128-148 | Over every run an account has the address it last chose, at sign-up or by a profile update, until its purge commits, and the placeholder of its stored id from then on; every stored id is its digest under a secret that was in use |
| ErasedAddresses.PurgeBlockedIff | backend/app/workers/gdpr/anonymizer.py:37-40 | In every reachable state an uninterrupted purge of a user completes, unless an already erased account's id has the same first 16 characters or an account not erased has last chosen that placeholder as its address; then it fails on the unique constraint |
| ErasedAddresses.BlockedUntilAddressChanges | backend/app/workers/gdpr/anonymizer.py:71-73 | A run in which a purge fails because another account signed up with the placeholder, and completes once that account has changed its address |
| ErasedAddresses.PurgeIsNeverBlocked | backend/app/workers/gdpr/anonymizer.py:71-73 | If the digests of the accounts there are differ within their first 16 characters and none has last chosen an address of the erased form, an uninterrupted purge of any of them completes |
| ErasedAddresses.TwoUsersErased | backend/app/workers/gdpr/anonymizer.py:107-148 | A run, from sign-up to purge, that meets these conditions and erases two users |
| Lockout.RecordLoginFailure | backend/app/auth/brute_force.py:48-61 | The counter goes up if INCR is executed; a new one gets its expiry if INCR was answered and EXPIRE executed; an existing expiry is left alone; the count is returned exactly when every command sent was answered |
| Lockout.IsLockedOut | backend/app/auth/brute_force.py:65-78 | True exactly when a live counter is at the threshold; nothing changes |
| Lockout.ClearFailures | backend/app/auth/brute_force.py:81-91 | The counter of the lowercased address is gone, others are untouched |
| Lockout.LoginUser | backend/app/services/auth_service.py:445-496 | Counter, audit row and outcome of a login in the order of its checks, the seconds to wait included, with each Redis command executed or not and answered or not |
| Lockout.AnswerKeepsPolicy | backend/app/services/auth_service.py:445-496 | When each answer of a login occurs and which audit entry it leaves: a success exactly below five counted failures, with accepted credentials, an active address and every command answered; rejected credentials give the new count; a locked account the time to wait |
| Lockout.LoginKeepsCounters | backend/app/auth/brute_force.py:48-91 | A counted failure moves the counter of its address up by one, a new counter gets 900 seconds if its EXPIRE is executed, a success removes it, and nothing else changes any counter |
| Lockout.KeysIgnoreCase | backend/app/auth/brute_force.py:34-36 | Addresses share a counter exactly when they differ at most in case |
| LockoutRuns.SlidingWindowBound | backend/app/auth/brute_force.py:48-78 | In every serial run, whatever Redis commands are lost, at most 9 counted failures in any 900 seconds without a success |
| LockoutRuns.LifetimeBound | backend/app/auth/brute_force.py:48-78 | In every serial run, a counted failure is at most the fifth of its counter's lifetime |
| LockoutRuns.RunKeepsPolicy | backend/app/services/auth_service.py:445-496 | Every login of every run is answered, and changes the counters, as these policies say |
| LockoutRuns.SuccessesAreEarned | backend/app/services/auth_service.py:451-473 | No login of any run succeeds with rejected credentials or with five failures counted |
| LockoutRuns.LockedFor900Seconds | backend/app/auth/brute_force.py:26-31 | Five failures from an empty store lock the address for 900 seconds and not a millisecond longer |
| LockoutRuns.SlidingWindowBoundIsTight | backend/app/auth/brute_force.py:48-78 | A run with exactly 9 failures in such a window |
| LockoutRuns.LockedForeverIffOpenerLostExpire | backend/app/auth/brute_force.py:55-60 | After any run from an empty store that leaves an address locked out, every later login is rejected for ever if and only if the EXPIRE of the login that opened the counter's lifetime (none, if a success came in between) was not executed |
| LockoutRuns.OneLostExpireLocksForever | backend/app/auth/brute_force.py:55-60 | Such a run: five failures from an empty store of which only the first loses its EXPIRE |
| LockoutRuns.RetryAfterIsRemaining | backend/app/services/auth_service.py:484-496 | The seconds a locked-out login is told to wait end within half a second of the counter's expiry, and are 0 when it has none |
| LockoutConcurrent.SerialRunsInterleave | backend/app/services/auth_service.py:445-481 | Every serial run of logins is a run of atomic Redis commands without overlap that ends in the same store |
| LockoutConcurrent.OverlapBoundIsExact | backend/app/services/auth_service.py:451-473 | Over all runs of Redis commands on the store with at most n overlapping attempts, the counter plus the attempts past the check stay within 4 + n, and a counter of 4 + n is reached |
| LockoutConcurrent.ClearsAreGuardedIffSerial | backend/app/auth/brute_force.py:18-21 | A success never clears a counter at the threshold if and only if attempts do not overlap |
| Consents.SetUserConsent | backend/app/services/consent_service.py:100-132 | The user's record is updated if there is one, else inserted |
| Consents.ConsentIsWritten | backend/app/services/consent_service.py:115-129 | An executed write for an existing user sets the user's first row to the flag given, or adds such a row when there is none, and changes nothing else; any other write changes nothing |
| Consents.SetConsentKeepsOneRecord | backend/app/services/consent_service.py:115-129 | The write takes effect, adds a record only if there was none, and touches no other user or team |
| Consents.RecordedIffOwnerSaysSo | backend/app/services/correction_service.py:57-73 | A correction records true exactly when the first row of the drawing's owner, user or team, is opted in |
| Consents.TeamDrawingRecords | backend/app/services/correction_service.py:61-67 | On a drawing of a team: no row records false, else what the team's first row says |
| Consents.ShownIs | backend/app/services/consent_service.py:45-77 | The account shows the first row of the user's team if there is one, else whether the user's first row is opted in, with its source |
| Consents.ResolutionsDifferIff | backend/app/services/correction_service.py:57-73 | The consent recorded with a correction on a personal drawing contradicts the one the account shows exactly when the owner's team record does |
| Consents.ResolutionsDiffer | backend/app/services/consent_service.py:45-77 | A concrete case in which they contradict each other |
| Corrections.CreateCorrection | backend/app/services/correction_service.py:109-169 | Symbol, log row and drawing state change together or not at all; each error case; the analytics event follows the commit, and only one that was answered |
| Corrections.CreateManualSymbol | backend/app/services/correction_service.py:175-222 | The same for a manual addition, stored with the given box and a confidence of 1.0 |
| Corrections.CorrectionKeepsPolicy | backend/app/services/correction_service.py:109-169 | When each outcome of a correction occurs |
| Corrections.CorrectionDoesWhatIsAsked | backend/app/services/correction_service.py:136-169 | What a correction leaves, field by field: the symbol as asked for, one log row with the owner's consent, the drawing moved only from Complete to Under_Review, the record that describes the symbol; or nothing |
| Corrections.AdditionKeepsPolicy | backend/app/services/correction_service.py:175-222 | Outcomes and effect of a manual addition, field by field |
| Corrections.WriteCommitsIffStorable | backend/app/services/correction_service.py:159-166 | The write is rolled back by the database exactly when the key of its log row is taken or the user or a class it names does not exist |
| CorrectionRuns.LogIsComplete | backend/app/services/correction_service.py:139-163 | In every reachable state each symbol's class and rejected flag are the replay of its log rows over how it first looked; the log only grows |
| CorrectionRuns.ReplayIsLastWins | backend/app/services/correction_service.py:140-146 | The replay is the last reclassification and the last reject or restore |
| CorrectionRuns.ConsentIsSnapshot | backend/app/services/correction_service.py:148-156 | Every log row keeps the consent of the drawing's owner at its commit, whatever is written or purged later |
| CorrectionRuns.OneConsentRecordEach | backend/app/services/consent_service.py:103-107 | Serial writes and purges keep at most one personal record per user |
| CorrectionRuns.RecordIsLastGiven | backend/app/services/consent_service.py:115-129 | At every point of every serial run a user's personal record holds the flag of the last executed write, none after a purge with no later write, and else what it held at the start |
| CorrectionRuns.ReviewState | backend/app/services/correction_service.py:76-88 | A drawing's state is its first state, or Under_Review if that was Complete and a correction of one of its symbols was committed |
| CorrectionRuns.CorrectedDrawingIsNotComplete | backend/app/services/correction_service.py:157-163 | No committed correction leaves its drawing Complete |
| SymbolPages.GetSymbolsPage | backend/app/services/symbol_service.py:140-205 | Both error cases; the slice of the ordered listing of the rows that pass the filters, as records in order, the size of the whole listing, and the grouped corrections |
| SymbolPages.FiltersSelect | backend/app/services/symbol_service.py:156-166 | The filters of a request select exactly the rows of the drawing that match every parameter given |
| SymbolPages.ListingIsCanonical | backend/app/services/symbol_service.py:156-178 | The listing holds exactly the selected rows, once each, in strict (page_number, id) order, whatever the order of the table; the total is its length |
| SymbolPages.PagesAreExact | backend/app/services/symbol_service.py:168-178 | Pages fetched at offsets 0, L, 2L, ..., each with the table read in another order, are successive slices of one listing |
| SymbolPages.PagesTogetherAreTheListing | backend/app/services/symbol_service.py:168-178 | Once they cover the total, they hold every row of the drawing that the request selects, once each and in order, and no other |
| SymbolPages.GroupCorrections | backend/app/services/symbol_service.py:193-197 | One pass groups the fetched rows: a key exactly for symbols with rows, each list in fetched order |
| SymbolPages.BatchRefinesPerSymbol | backend/app/services/symbol_service.py:183-192 | Restricting the batch to one symbol is the query for that symbol |
| SymbolPages.GroupedBatch | backend/app/services/symbol_service.py:180-197 | Keys exactly for page symbols with corrections; lists as per-symbol queries; together every correction of the page once |
| SymbolPages.GroupsUpToOrder | backend/app/services/symbol_service.py:184-197 | A batch fetched in another order gives the same lists up to order |
| DeadLetter.AnalyticsQueue.Push | backend/app/analytics/dead_letter.py:48-65 | The entry is appended and the oldest are dropped beyond the cap; or only appended; or dropped |
| DeadLetter.AnalyticsQueue.EmitEvent | backend/app/analytics/events.py:39-57 | Nothing when disabled, else delivered or pushed to the queue |
| DeadLetter.AnalyticsQueue.PopAndRetry | backend/app/analytics/dead_letter.py:89-110 | One turn: the LPOP is not executed, or takes the head without an answer and loses it, or answers; then the head is discarded, delivered, put back or lost |
| DeadLetter.AnalyticsQueue.RetryDeadLetter | backend/app/analytics/dead_letter.py:68-111 | The loop over the initial length, with emits interleaved before every pop and during every send and an exception where an LPOP goes unanswered, is the recursive drain; it returns the number delivered |
| DeadLetterRuns.EmissionMeans | backend/app/analytics/events.py:39-57 | Nothing while analytics is disabled; else the event is delivered, or appended with the list cut to its newest 10,000, or only appended, or lost |
| DeadLetterRuns.TurnMeans | backend/app/analytics/dead_letter.py:88-110 | How each turn ends and what it does with the entry, the lost head of an unanswered LPOP included |
| DeadLetterRuns.DrainRaises | backend/app/analytics/dead_letter.py:88-91 | A drain raises only because of an LPOP without an answer, and one that comes to it raises |
| DeadLetterRuns.DrainNeedsAnalyticsAndRedis | backend/app/analytics/dead_letter.py:77-85 | With analytics disabled or the length unread a drain does nothing and returns 0 |
| DeadLetterRuns.TrimKeepsNewest | backend/app/analytics/dead_letter.py:58-60 | A trimmed write keeps the newest entries up to the cap, in order |
| DeadLetterRuns.RunConserves | backend/app/analytics/dead_letter.py:48-111 | Over every run, with any Redis command lost or unanswered, what is somewhere is what was there plus what was emitted while enabled |
| DeadLetterRuns.EveryEventInExactlyOnePlace | backend/app/analytics/events.py:48-57 | An emitted event is exactly once in delivered, queued, dropped by the cap or dropped by a Redis failure |
| DeadLetterRuns.DrainVisitsEachOnce | backend/app/analytics/dead_letter.py:80-111 | If no write drops an entry meanwhile, a drain attempts each entry present at its start once and in order, delivers those whose send succeeds and returns their number, and leaves the failed and the new entries merged in order |
| DeadLetterRuns.FullListNeedNotTrim | backend/app/analytics/dead_letter.py:58-60 | A drain of a full list during which an event arrives and nothing is dropped |
| DeadLetterRuns.NeverTwiceIffRoom | backend/app/analytics/dead_letter.py:71-74 | No entry is attempted twice in one call if and only if there is at most one, nothing is written meanwhile, or everything fits below the cap |
| ScanWorker.Worker.CommitStateAndPublish | backend/app/workers/scan/tasks.py:126-130 | The state is committed before it is published, for every point of failure |
| ScanWorker.Worker.ScanDrawing | backend/app/workers/scan/tasks.py:134-207 | State, events and ML jobs after one delivery, for every scan result and every point of failure |
| ScanWorker.RunIsScanSafe | backend/app/workers/scan/tasks.py:146-205 | Over any deliveries: out of Scanning at most once, at most one event and only for the committed state, at most one ML job and only after Processing was committed and published |
| ScanWorker.TakerDecides | backend/app/workers/scan/tasks.py:146-205 | A drawing stays in Scanning until a delivery takes it out; the state is then Processing exactly for a clean file, Scan_Failed for an infected one, Failed for one clamd could not scan with no retry left; publish and ML job as far as that delivery got |
| ScanWorker.OnlyCleanFilesAreProcessed | backend/app/workers/scan/tasks.py:185-205 | Unless a delivery finds it clean, a drawing is never committed or published as Processing and gets no ML job |
| ScanWorker.NothingAfterScanning | backend/app/workers/scan/tasks.py:150-156 | Once a drawing has left Scanning no delivery does anything for it |
| ScanWorker.EnqueuedIffCommittingDeliveryFinished | backend/app/workers/scan/tasks.py:185-197 | After Processing is committed, and whatever is delivered again, the state is ever published if and only if that delivery got past the publish, and the ML job is ever enqueued, with the payload's user and file, if and only if it ran to its end |
| Endpoints.DecodeEncodes | frontend/src/api/endpoints.ts:90 | Percent-decoding recovers any value |
| Endpoints.EncodesByte | frontend/src/api/endpoints.ts:90 | A letter, a digit or one of - _ . ! ~ * ' ( ) stays as it is; any other byte becomes % and its two upper-case hexadecimal digits |
| Endpoints.EncodedAlphabet | frontend/src/api/endpoints.ts:90 | Encoded text holds only those characters and %: none that ends a path, separates segments or starts a parameter |
| Endpoints.NameIsLongestRun | frontend/src/api/endpoints.ts:86 | A parameter name is the longest run of letters, digits and underscores |
| Endpoints.FillsSegmentwise | frontend/src/api/endpoints.ts:82-92 | A template of whole segments is filled segment by segment whatever the values contain; it fails exactly when a parameter is missing and names the first |
| Endpoints.TemplateRoundTrip | frontend/src/api/endpoints.ts:82-92 | Filling, splitting on "/" and decoding recovers the values and the literal segments |
| Endpoints.PathsAreInjective | frontend/src/api/endpoints.ts:82-92 | Equal paths come from equal values |
| Partitions.MonthAfterClosedForm | backend/alembic/versions/0003_audit_partitions.py:29-32 | Iterating the successor n times is division and remainder by 12 |
| Partitions.BoundsExistIff | backend/app/db/models/audit_log.py:66-72 | Every valid month but December 9999 has bounds: its first day and the first day of the next month |
| Partitions.PartitionsMeet | backend/app/db/models/audit_log.py:66-72 | A partition ends where that of the next month starts |
| Partitions.InPartitionIffItsMonth | backend/app/db/models/audit_log.py:66-72 | A date lies in the partition of its own month and in no other |
| Partitions.PartitionsTile | backend/app/db/models/audit_log.py:66-72 | Every date from the first month on lies in exactly one of the successive partitions |
| Partitions.NameRoundTrip | backend/app/db/models/audit_log.py:61-63 | Year and month can be read back off the name |
| Partitions.NameShape | backend/app/db/models/audit_log.py:61-63 | A name is "audit_log_", the year, "_" and the month, 17 characters while years have four digits |
| Partitions.NamesAreInjective | backend/app/db/models/audit_log.py:61-63 | Different months have different names |
| Partitions.NamesSortChronologically | backend/app/db/models/audit_log.py:61-63 | Up to year 9999 the names sort in chronological order |
| Partitions.NamesMisorderAfter9999 | backend/app/db/models/audit_log.py:61-63 | Beyond that they do not |
| Notification.RetryAfterSeconds | backend/app/workers/notification/tasks.py:79-91 | The first Retry-After header decides; 60 seconds if there is none or it does not parse |
| Notification.RetryAfterMeans | backend/app/workers/notification/tasks.py:79-91 | The wait is what the first header says that reads Retry-After in whatever case; 60 seconds if there is none or it is not a number |
| Notification.Dispatch | backend/app/workers/notification/tasks.py:121-159 | Sent exactly for an accepted mail; failed for good exactly for a 4xx other than 429; any other failure retried exactly while retries are left, after Retry-After seconds for a 429 and the backoff otherwise |
| Notification.PolicyDecides | backend/app/workers/notification/tasks.py:121-159 | These clauses leave one result for every answer, the one whole jobs are built from |
| Notification.RedirectsAreRetried | backend/app/workers/notification/tasks.py:147-157 | A first answer of 300 to 399 is followed by a second send |
| Notification.SendsAreBounded | backend/app/workers/notification/tasks.py:119-159 | An e-mail job sends between one and four times, ends as its last send did, and gives up only after the fourth |
| Notification.OnlyRetriableAnswersAreRetried | backend/app/workers/notification/tasks.py:119-159 | Nothing is sent after a 2xx or a permanent 4xx |
| Notification.BackoffIsMonotone | backend/app/workers/notification/tasks.py:67-76 | The backoff never shrinks and is 3600 seconds exactly from the sixth retry on |
| Notification.BackoffTotal | backend/app/workers/notification/tasks.py:147-157 | Without rate limiting the total wait is at most 420 seconds, and exactly that when every send fails |

## Left out

- Routers, request schemas, configuration, logging, JSON and the permission matrix: shapes and one-branch facts; whether a caller may act on a drawing is a parameter.
- GoTrue, PostHog, SendGrid, S3, clamd, Celery and PostgreSQL internals: each is an environment that returns an answer or fails; isolation is whole-transaction commit or rollback.
- HMAC-SHA256 and token signatures: an arbitrary function of secret and user; a lemma names what it needs (64-character digests; 16-character prefixes that differ among the accounts and secrets of the run; agreeing secrets).
- CorrectionRuns.LogIsComplete: for serial executions; the writes take no row lock, so two overlapping corrections of one symbol are outside the statement.
- CorrectionRuns.OneConsentRecordEach: for serial writes; locking an absent row locks nothing, so two first writes that overlap are outside it.
- ScanWorker.RunIsScanSafe: for deliveries of one drawing that do not overlap, and later stages that never put a drawing back into Scanning (no code here does).
- Lockout.LoginUser: the session tokens, passed on from GoTrue, are not part of the outcome; lowercasing is that of ASCII letters; a TTL is rounded as Redis rounds it.
- LockoutRuns.SlidingWindowBound: a rejected credential check whose INCR never reached Redis is not counted by the code and not by the bound.
- Accounts.RegisterUser: the session tokens of the answer.
- Lifecycle.RunSound: a profile update is one event, and so is a job attempt (their interleavings are those of ErasureInterleaved); an update that passes authentication before its account is deleted and commits afterwards is outside the runs. Which addresses the request schemas admit is a parameter.
- Endpoints.TemplateRoundTrip: values are the bytes of their UTF-8 form; lone surrogates, which raise, and parameter names inherited from the object prototype are not modelled.
- SymbolPages.GetSymbolsPage: the string form of keys and dates, and the table cell of a correction, which no code sets; confidence and coordinates are real numbers.
- Partitions.PartitionsMeet: the text of the DDL around names and bounds.
- DeadLetter.AnalyticsQueue.EmitEvent: the properties of an event; two drains at the same time; an event that PostHog took without saying so counts as not delivered.
- Consent rows of teams: no code writes them; which of several rows of one owner a query returns first is the order of the table.
- Permissions, tiers, storage caps, cache, pub/sub transport, the React client and the marketing site; drawings, exports, billing, teams and ML inference have no code in the repository.
