# GradConnect in Dafny

A model of the parts of the GradConnect API in which several actors step through shared
state, with proofs of what those steps keep. Tables are maps from id to row, each SQL
statement or transaction body is one atomic step, and time is one clock that never goes
back. Protocols are state machines (`Enabled`, `Next`) with theorems about every finite run
(`ValidRun`, `Final`); the code that changes a table in place is a class whose methods are
proved against those steps.

| module | what it is about |
|---|---|
| `RateLimit` | the in-memory fixed-window limiter: refinement, exact sliding bound |
| `TaskQueue` | the task queue: ownership, attempts, backoff, termination, no starvation |
| `Employers`, `Users` | rows under an optimistic lock: serializability |
| `Accounts` | sign-up, login, tokens, sessions, soft deletion and purge as one state machine |
| `SessionSafety`, `TokenLifecycle`, `PurgeSafety` | theorems about every run of `Accounts` |
| `AccountStore` | the account transactions on the tables, each refining its `Accounts` step |
| `Ratings` | reviews, moderation and the rating columns cached on employers |
| `SesEvents` | bounces and complaints under at-least-once delivery |
| `CronClaims`, `Reminders` | the scheduled jobs, their claims, and the reminder batches |
| `CsvImport` | imports as folds of upserts |
| `OpportunityStatus`, `Paging`, `Timeline` | filters, pages and the printed form against simple references |
| `Common`, `Sums` | an option type, partial updates, a number not taken, sums over maps |

`dafny verify dfyconfig.toml` checks everything.

## What the code does not give

Some expected properties are false of the code. Each is stated with a witness or, where
there is one, with the exact condition under which it holds.

- Login reads the user before its transaction (internal/app/auth.go:164-195). A deletion in
  between leaves a session of a deleted account: `SessionSafety.StaleLoginHappens`, and
  `SessionSafety.SafetyStep` shows that this is the only way. A password reset in between
  does not stop the login: `SessionSafety.OldPasswordOutlivesReset`,
  `SessionSafety.ResetShutsOutExactly`.
- A password change checks the current password before its transaction
  (internal/app/auth.go:780-810). One that was checked before a reset goes through after it:
  `SessionSafety.ChangeReplacesReset`, `SessionSafety.ResetStaysExactly`.
- The session middleware reads the session and the user in two statements
  (internal/app/middleware.go:28 and 36). A deletion in between ends the request in a server
  error: `SessionSafety.ServerErrorHappens`, and `SessionSafety.AdmitsOnlyLive` says exactly
  when a request fails.
- The branch of that middleware that revokes the session of a deleted account
  (internal/app/middleware.go:42-49) is never reached, because the lookup before it already
  filters deleted rows; such a session ends in a server error and stays:
  `AccountStore.Store.LoadUser`, `SessionSafety.AdmitsOnlyLive`.
- A purge with a victim who owns an import job aborts, and so does every later one until
  that user signs in again (migrations/000012_create_import_job_table.up.sql:9 declares the
  column NOT NULL and ON DELETE SET NULL): `PurgeSafety.PurgeBlockedHappens`,
  `PurgeSafety.PurgeExactly`, `PurgeSafety.PurgeBlockedForever`.
- Editing, rejecting or deleting an approved review queues no recalculation:
  `Ratings.EditSpoilsCache`, `Ratings.SpoilsExactly`.
- A lost bookkeeping write leaves a task processing for good, because nothing reads
  `locked_at`: `TaskQueue.LostWriteStrandsTask`, `TaskQueue.SettledExactly`.
- The reminder job reads the clock twice. A manual trigger just before midnight can repeat
  reminders: `Reminders.MidnightTriggerRepeats`, exactly when by `Reminders.StayingExactly`.
- The status filters split the listing only while no active row opens more than a day after
  its deadline, updates compare only dates sent together, and imports compare none
  (internal/app/import_processor.go:195-219): `OpportunityStatus.UpdateCanMisfile`,
  `OpportunityStatus.ImportCanMisfile`, `OpportunityStatus.FiltersAgreeExactly`,
  `OpportunityStatus.UpdateKeepsDatesExactly`.
- An opportunities file must have `employer_id` but is matched by `employer_slug`
  (internal/app/import_processor.go:79 and 165), so without that column by its first cell:
  `CsvImport.EmployerKeyOfOpportunity`, `CsvImport.IdIsTakenForSlug`.
- An employers import sets offices, culture and social links to null, since its rows never
  carry them (internal/app/import_processor.go:133-162): `CsvImport.ImportLosesOffices`,
  `CsvImport.ImportKeepsDetailsExactly`.
- An import whose last statement fails is tried again when its file is already gone: the job
  ends as failed although its rows are in the table: `CsvImport.RetryUnrecorded`.

The documentation says otherwise in three places, and the model follows the code: retries
come 2 and 4 minutes after a failure, not 1, 5 and 30 (README.md:231); reminders are for
deadlines exactly three days ahead, not within three days (README.md:227); sessions are
cleaned up every six hours, not hourly (README.md:228).

## Model

| member | source | states |
|---|---|---|
| `RateLimit.LimiterRefinesKeySpec` | internal/ratelimit/ratelimit.go:33-105 | Over every call sequence the map with lazy expiry and periodic cleanup answers each key exactly as a one-key specification that never deletes an expired entry; cleanup and other keys cannot be observed |
| `RateLimit.SlidingBound` | internal/ratelimit/ratelimit.go:33-55 | With a constant limit L and window W and no reset, every closed interval of length W sees at most 2L-1 successful calls on a key, over any run with cleanups and other keys |
| `RateLimit.SlidingBoundReached` | internal/ratelimit/ratelimit.go:33-55 | For every L and W some run reaches 2L-1 |
| `RateLimit.PeekForetellsAllow` | internal/ratelimit/ratelimit.go:86-105 | Peek answers what Allow would answer at that instant, with the same retry time, and changes nothing |
| `RateLimit.RetryAfterIsExact` | internal/ratelimit/ratelimit.go:40-54 | After a denial an untouched key succeeds exactly once more than the reported time has passed |
| `RateLimit.BoundInside` | internal/ratelimit/ratelimit.go:40-54 | Inside an interval at most the rest of the current window plus one more window succeeds |
| `RateLimit.StepSimulates` | internal/ratelimit/ratelimit.go:70-84 | Each operation keeps the map in step with the cleanup-free entry: equal, or dropped after it expired |
| `RateLimit.MemoryLimiter.Allow` | internal/ratelimit/ratelimit.go:33-55 | Denied iff the key has an unexpired entry at its limit; otherwise the first call opens a window and later ones count up; a denial reports the time left; other keys stay. Also the specification step of the theorems above |
| `RateLimit.MemoryLimiter.Peek` | internal/ratelimit/ratelimit.go:89-105 | Denied iff the key has an unexpired entry at its limit, with the time left; it has no frame, so the map stays |
| `RateLimit.MemoryLimiter.Reset` | internal/ratelimit/ratelimit.go:64-68 | The key is forgotten, all others stay |
| `RateLimit.MemoryLimiter.Cleanup` | internal/ratelimit/ratelimit.go:70-84 | The deleting loop removes exactly the expired entries |
| `TaskQueue.QueueSafety` | internal/worker/worker.go:36-132 | In every reachable state, with any number of workers and lost writes: at most one holder per processing task, pending means attempts are left, dead means none are, and a task is handed to a handler at most max_attempts times |
| `TaskQueue.SettledForever` | internal/worker/worker.go:97-132 | Completed and dead are absorbing, and so is processing once its holder is gone: row and claims never change again |
| `TaskQueue.SettledExactly` | internal/worker/worker.go:76-132 | Completed, dead, and processing with no holder are exactly the tasks whose row no run ever changes again; for any other task there is a run that changes it |
| `TaskQueue.UnsettledCanMove` | internal/worker/worker.go:76-132 | That run: the holder completes, or a free worker works off the tasks ahead and claims the waiting one |
| `TaskQueue.LostWriteStrandsTask` | internal/worker/worker.go:97-107 | A run of insertion, claim and lost write from the empty queue after which the task is processing and out of reach |
| `TaskQueue.BackoffOverRuns` | internal/worker/worker.go:123-126 | In every run the claim after the k-th failure comes at least 2^(k+1)-2 minutes after the first claim |
| `TaskQueue.DefaultRetrySchedule` | internal/worker/worker.go:111-127 | With the default of three attempts: retry after 2 minutes, then after 4, then dead with run_at untouched |
| `TaskQueue.QueueTerminates` | internal/worker/worker.go:78-127 | Without inserts the claims of any run are at most the sum of remaining attempts, and all claims, completions and failures together at most a measure of the table |
| `TaskQueue.StepSpends` | internal/worker/worker.go:78-127 | Every claim, completion and failure strictly lowers that measure |
| `TaskQueue.BoundedOvertaking` | internal/worker/worker.go:78-93 | Once the clock has passed a pending task's run_at only tasks already ahead of it are claimed before it, each at most once; inserts and requeued failures never overtake |
| `TaskQueue.NoStarvation` | internal/worker/worker.go:78-93 | One claim more than there were tasks ahead includes the task itself |
| `TaskQueue.ClaimsWhatWasInserted` | internal/data/tasks.go:21-26 | Over every run from the empty queue a claim finds, unchanged, the job type and the payload of the one insertion of that task |
| `TaskQueue.ContentOrigin` | internal/data/tasks.go:21-26 | A task at the end of a run was there before, or one step of the run inserted exactly its job type and payload |
| `TaskQueue.ContentStays` | internal/worker/worker.go:78-132 | No run changes the job type, the payload or the attempt limit of a task, or drops it |
| `TaskQueue.InsertedRow` | internal/data/tasks.go:15-28 | An insertion stores the job type as job type and the payload as payload, pending, due now, with no attempt of three made |
| `TaskQueue.Pool.Insert` | internal/data/tasks.go:15-28 | A new task holds its job type and payload, is pending, due now, with no attempt of three made |
| `TaskQueue.Pool.ClaimNext` | internal/worker/worker.go:78-93 | Takes a due task with the earliest run_at and nothing else; takes none only if none is due |
| `TaskQueue.Pool.MarkCompleted` | internal/worker/worker.go:97-107 | Completes that row and no other |
| `TaskQueue.Pool.MarkFailed` | internal/worker/worker.go:109-132 | Counts the attempt; dead when they are used up, else pending again 2^n minutes later; nothing else changes |
| `TaskQueue.Pool.TakeTurn` | internal/worker/worker.go:48-72 | One turn of the loop is a run of the protocol and goes without a task only if none is due |
| `TaskQueue.Pool.Run` | internal/worker/worker.go:36-74 | The whole loop, whatever the handlers answer and whichever writes are lost, is a run of the protocol, so all theorems above hold of it |
| `Employers.Serializable` | internal/data/employers.go:281-363 | For any interleaving of many clients' reads and compare-and-sets with creations, upserts, deletions and rating writes, the table equals the committed operations replayed one at a time in commit order |
| `Employers.ColumnsOverRuns` | internal/data/employers.go:281-363 | Over every run each of the twelve editable columns of each row reads as the last committed operation that set it left it; ratings and other columns never interfere |
| `Employers.CommitExactly` | internal/data/employers.go:324-360 | A stale update or one onto a taken slug commits nothing; any other found every editable column as it was read and touches one row |
| `Employers.CommitIsPatch` | internal/data/employers.go:281-363 | A compare-and-set that succeeds with a row read earlier is the patch of the current row |
| `Employers.StepKeepsInv` | internal/data/employers.go:281-546 | Slugs stay unique, and a read whose version is current stays right in every editable column |
| `Employers.RatingsPassTheLock` | internal/data/employers.go:440-466 | A rating write changes its three columns only, version included among those that stay |
| `Employers.EmployerModel.GetById` | internal/data/employers.go:193-235 | The row as stored, but for offices and social links, which read as an empty array when null, empty or the word null |
| `Employers.EmployerModel.CompareAndSet` | internal/data/employers.go:324-360 | Conflict iff the version moved, success iff it did not and no other row has the slug; then the twelve columns are those given, the ratings stay, the version is one higher, and no other row changes |
| `Employers.EmployerModel.Overwrite` | internal/data/employers.go:287-322 | Column by column: the value sent, or else the value read |
| `Employers.EmployerModel.Update` | internal/data/employers.go:281-363 | Undisturbed it is the atomic patch: not found iff the row is missing, duplicate iff another row has the slug; otherwise each of the twelve columns holds the sent value or else the one read, ratings stay, the version is one higher, other rows are unchanged, and the caller gets the row as written |
| `Employers.EmployerModel.Insert` | internal/data/employers.go:137-191 | Refused iff the slug is taken; otherwise one new row with the columns given, unverified, without ratings, version 1 |
| `Employers.EmployerModel.Delete` | internal/data/employers.go:365-378 | That row goes and no other; not found iff it was not there |
| `Employers.EmployerModel.Upsert` | internal/data/employers.go:483-546 | Inserts, or overwrites the row with that slug: the columns given, but verification flag, ratings and count as before and the version one higher; no other row changes |
| `Users.Serializable` | internal/data/users.go:336-394 | The same theorem for user rows, with activation, password changes, soft deletion, restoring and purges that bypass the lock, and delivery marks that do not bump the version |
| `Users.CommitExactly` | internal/app/users.go:82-116 | A PATCH commits iff the version is still the one loaded; then the row was live and only profile and version change |
| `Users.VerifiedForever` | internal/data/users.go:336-384 | Once an address is verified no PATCH, loaded before or after, takes it back, over every run |
| `Users.ApplyKeepsEmailsUnique` | internal/data/users.go:219-255 | No statement makes two users share an address |
| `Users.UserModel.Insert` | internal/data/users.go:219-255 | A taken address, deleted users included, is refused without effect |
| `Users.UserModel.GetById` | internal/data/users.go:297-334 | Live users only |
| `Users.UserModel.GetByEmail` | internal/data/users.go:258-295 | Finds the live user of an address, and none iff there is none |
| `Users.UserModel.GetByEmailIncludingDeleted` | internal/data/users.go:472-509 | Finds the user of an address, deleted or not |
| `Users.UserModel.Update` | internal/data/users.go:336-374 | Compare-and-set of the profile columns and email_verified; the caller's copy gets the new version only on success |
| `Users.UserModel.Overwrite` | internal/app/users.go:84-105 | Field by field: the value sent, or else the value loaded |
| `Users.UserModel.PatchProfile` | internal/app/users.go:82-107 | Undisturbed it is the atomic patch: each profile field of a live user holds the sent value or else the old one, only the version changes besides, and no other row |
| `Users.UserModel.Activate` | internal/data/users.go:376-384 | Verifies and bumps the version of that row only |
| `Users.UserModel.UpdatePassword` | internal/data/users.go:386-394 | Replaces the hash and bumps the version of that row only |
| `Users.UserModel.SoftDelete` | internal/data/users.go:427-446 | Stamps a live row; a row already deleted keeps its time and reason |
| `Users.UserModel.Restore` | internal/data/users.go:517-527 | Clears the deletion of that row and bumps its version |
| `Users.UserModel.MarkEmailStatus` | internal/data/users.go:409-417 | Sets the delivery status of every row with that address and no version |
| `Accounts.InvAlways` | internal/app/auth.go:71-94 | In every reachable state of all account steps: addresses unique, no dangling user in sessions, tokens, reviews or imports, one token per user and scope, no deletion or session from the future |
| `Accounts.PurgeKeepsInv` | internal/data/users.go:448-465 | The foreign keys leave nothing dangling after a purge |
| `Accounts.DeletionMark` | internal/data/users.go:427-446 | A deletion mark changes only by deleting a live account, which sets it to now, or by a restoring login, which clears it |
| `Accounts.UsersKept` | internal/data/users.go:454-465 | Only a purge removes users: all its victims or, if it aborts, nobody |
| `Accounts.SessionOrigin` | internal/data/session.go:25-45 | A session was there unchanged before the step, or was opened by it, now, under an unused id |
| `Accounts.SessionsRevoked` | internal/data/session.go:74-96 | No session of the user survives deletion, reset or purge, and only the kept one survives a password change |
| `SessionSafety.SafetyStep` | internal/app/auth.go:164-214 | From a state where every session belongs to a live user a step leads to such a state iff it is not a login whose user was deleted after the login read the row |
| `SessionSafety.SessionsAlwaysSafe` | internal/app/auth.go:164-214 | Over every run without such a login all sessions belong to existing, non-deleted users |
| `SessionSafety.AtomicHandlersAreSafe` | internal/app/auth.go:195-214 | With every handler as one step, in every state reachable from the empty database all sessions belong to existing, non-deleted users, and the middleware, undisturbed between its two reads, does not fail |
| `SessionSafety.StaleLoginHappens` | internal/app/auth.go:164-214 | A run from the empty database that ends with a session of a deleted user |
| `SessionSafety.AdmitsOnlyLive` | internal/app/middleware.go:28-51 | With any steps of others between its two reads, the middleware admits a request iff the user of the session is live at the second read; it fails iff that user was deleted at the first read or has been deleted since, and no login restored the account |
| `SessionSafety.ServerErrorExactly` | internal/app/middleware.go:28-40 | In a database reached without stale logins a request with an open session fails iff the account is deleted between the two reads and not restored |
| `SessionSafety.ServerErrorHappens` | internal/app/middleware.go:28-40 | A run in which sessions are safe throughout, nobody logs in late, and a request fails |
| `SessionSafety.SessionStaysExactly` | internal/data/session.go:74-96 | A step keeps a session, unchanged, iff it is not a deletion of its user, a reset with a live token of its user, a password change of its user elsewhere, its logout, its cleanup after expiry, or a purge that removes its user; nobody else loses a session |
| `SessionSafety.SessionSurvivesExactly` | internal/data/session.go:74-96 | Over every run a session is still there, unchanged, iff no such step hit it |
| `SessionSafety.ResetRevokesForGood` | internal/app/auth.go:696-711 | After a password reset every session of that user in any later state has an id unused before and was opened no earlier |
| `SessionSafety.ResetShutsOutExactly` | internal/app/auth.go:164-214 | For every hash other than the new one: over all later runs that do not set it again no session of the user opened under it survives a reset, iff at the reset no login matched against it is waiting for its transaction |
| `SessionSafety.OldPasswordOutlivesReset` | internal/app/auth.go:164-214 | A run in which a login matched against the old password commits after the reset and its session stands |
| `SessionSafety.ChangeReplacesReset` | internal/app/auth.go:780-827 | Whatever it was checked against, a change after a reset leaves its own password in force |
| `SessionSafety.ResetStaysExactly` | internal/app/auth.go:696-711 | Over any later run the password of a reset is in force at the end iff no later reset or change of that user sets one, or the last one sets the same |
| `SessionSafety.ChangeRevokesOthersForGood` | internal/app/auth.go:810-827 | After a password change the same, but for the session that made it |
| `TokenLifecycle.AtMostOneToken` | internal/data/tokens.go:91-122 | Over every run from the empty database a user has at most one stored token per scope |
| `TokenLifecycle.SpentForever` | internal/data/tokens.go:63-89 | A token that no longer resolves, consumed, superseded, purged or expired, never resolves again |
| `TokenLifecycle.IssueSupersedes` | internal/data/tokens.go:91-122 | Issuing makes the new token resolve, spends the user's earlier one of that scope, and changes no other token of either scope |
| `TokenLifecycle.ScopesIndependent` | internal/data/tokens.go:63-134 | Issuing and consuming in one scope leaves the tokens of the other as they are |
| `TokenLifecycle.ActivationTokenStaysExactly` | internal/data/tokens.go:91-134 | A step keeps an activation token, unchanged, iff it does not issue a new one to its user, verify its user, or purge its user |
| `TokenLifecycle.ResetTokenStaysExactly` | internal/data/tokens.go:91-134 | A step keeps a reset token, unchanged, iff it does not issue a new one to its user, reset its user, or purge its user |
| `TokenLifecycle.VerifyOnce` | internal/app/auth.go:261-291 | A resolving verification link takes effect iff its user is not deleted, and then never resolves again over any later run; otherwise nothing changes |
| `TokenLifecycle.ResetOnce` | internal/app/auth.go:696-711 | A reset token sets one password and never resolves again over any later run |
| `PurgeSafety.PurgedWereDeletedThroughout` | internal/data/users.go:427-465 | Whoever any step removes carried one and the same deletion time in every state of the thirty days before |
| `PurgeSafety.StampIsContinuous` | internal/data/users.go:427-446 | A deletion time found at the end of a run that starts after it was there throughout; deleting again never moves it |
| `PurgeSafety.GraceIsKept` | internal/data/users.go:517-527 | From a live account, or one deleted at or after a time, no run within thirty days of that time removes the user, so restoring and deleting again gives thirty new days |
| `PurgeSafety.PurgeKeepsReviews` | migrations/000018_add_soft_delete_app_user.sql.up.sql:16-25 | A purge keeps every review, its scores and every employer's approved aggregate, and only clears the authors it removed |
| `PurgeSafety.PurgeExactly` | migrations/000012_create_import_job_table.up.sql:9 | A user is purged iff overdue by more than thirty days and no overdue user owns an import job |
| `PurgeSafety.PurgeBlockedForever` | migrations/000012_create_import_job_table.up.sql:9 | While one overdue owner of an import job is not restored, no run removes anybody |
| `PurgeSafety.PurgeBlockedHappens` | migrations/000012_create_import_job_table.up.sql:9 | A run of sign-up, import, deletion and thirty days after which a purge removes nobody |
| `AccountStore.Store.CreateSession` | internal/data/session.go:25-45 | Opens a session for seven days, or is refused without effect for an unknown user |
| `AccountStore.Store.GetSession` | internal/data/session.go:47-72 | Unexpired sessions only |
| `AccountStore.Store.DeleteAllForUser` | internal/data/session.go:81-84 | A session stays, unchanged, iff it is of another user |
| `AccountStore.Store.DeleteAllForUserExcept` | internal/data/session.go:89-96 | Removes exactly the other sessions of that user |
| `AccountStore.Store.NewToken` | internal/data/tokens.go:91-122 | Delete then insert refines the issue step, or the foreign key refuses |
| `AccountStore.Store.DeleteTokens` | internal/data/tokens.go:124-134 | Removes the user's tokens of one scope only |
| `AccountStore.Store.GetUserForToken` | internal/data/tokens.go:63-89 | The user of an unexpired token of that scope |
| `AccountStore.Store.Register` | internal/app/auth.go:71-94 | Insert, token and session in one transaction refine the sign-up step; a taken address leaves no trace |
| `AccountStore.Store.ReadLogin` | internal/app/auth.go:164-194 | The lookup before the transaction, deleted users included, and what it remembers |
| `AccountStore.Store.CommitLogin` | internal/app/auth.go:195-214 | The transaction restores according to what was read, then opens a session; it refines its protocol step |
| `AccountStore.Store.Activate` | internal/app/auth.go:261-291 | Refines the verification step; succeeds iff the token resolves to a live user, and is otherwise rolled back in full |
| `AccountStore.Store.FindForReset` | internal/app/auth.go:618-633 | The lookup: found iff a live user with a password has that address |
| `AccountStore.Store.ReadSession` | internal/app/middleware.go:20-34 | The first read of the middleware: the user of an unexpired session, else anonymous; refines its protocol step |
| `AccountStore.Store.LoadUser` | internal/app/middleware.go:36-51 | The second read: admitted iff the remembered user is live; refines its protocol step |
| `AccountStore.Store.ForgotPassword` | internal/app/auth.go:618-648 | Undisturbed between lookup and transaction, issues a token iff a live user with a password has that address |
| `AccountStore.Store.ResetPassword` | internal/app/auth.go:696-711 | With a live token, and only then: new hash of its user, exactly that user's sessions and reset tokens gone, all others as before |
| `AccountStore.Store.ChangePassword` | internal/app/auth.go:810-827 | New hash, all other sessions of the user gone |
| `AccountStore.Store.DeleteAccount` | internal/app/auth.go:900-913 | A live account is stamped with time and reason, exactly its sessions go, and all other users and sessions stay |
| `AccountStore.Store.CleanupSessions` | internal/worker/cron.go:236-243 | Removes exactly the expired sessions and counts them |
| `AccountStore.Store.PurgeSoftDeleted` | internal/data/users.go:454-465 | Removes exactly the users deleted for more than thirty days, with their sessions and no others, and counts them; or aborts without effect |
| `AccountStore.Store.Authenticate` | internal/app/middleware.go:16-60 | The two reads with nothing in between: anonymous, admitted or server error |
| `Ratings.CacheInvariant` | internal/app/reviews.go:214-234 | In every reachable state each employer's cached count and averages agree with its approved reviews, unless a recalculation is being enqueued, queued, running, stuck or dead, or a change went by unqueued since the last one |
| `Ratings.QuiescentCachesAgree` | internal/data/employers.go:440-466 | From an empty database, when all recalculations of an employer are done and none was missed, its cached count and averages are those of the score columns of its approved reviews |
| `Ratings.SpoilsExactly` | internal/data/reviews.go:330-414 | Editing, rejecting or deleting makes a right cache wrong iff the review was approved; approving iff it was not |
| `Ratings.MissedExactly` | internal/data/reviews.go:330-414 | A change is unqueued iff an approved review is edited, deleted or rejected or the insert after an approval fails, until the next recalculation |
| `Ratings.EditSpoilsCache` | internal/data/reviews.go:330-339 | A run of submission, approval, recalculation and edit after which the cache is wrong and no recalculation is on its way |
| `Ratings.AggregateIsTheMean` | internal/data/employers.go:446-454 | Averages are null iff no review is approved, otherwise within [1,5] and within half a hundredth of the exact mean |
| `Ratings.AggregateIsTheColumnMean` | internal/data/employers.go:446-454 | Count and averages against sums of the two score columns over the approved reviews of the employer: null iff there is none, otherwise within [1,5] and within half a hundredth |
| `Ratings.ForgettingAuthorsKeepsAggregates` | migrations/000018_add_soft_delete_app_user.sql.up.sql:16-25 | Clearing authors changes no employer's aggregate |
| `Ratings.RatingStore.UpdateReview` | internal/data/reviews.go:292-360 | Only the author's edit takes effect; it sends the review back to moderation |
| `Ratings.RatingStore.ModerateReview` | internal/app/reviews.go:214-234 | Sets the status, then queues a recalculation for approvals only; a failed insert leaves the moderation standing |
| `Ratings.RatingStore.ApprovedTotals` | internal/data/employers.go:446-453 | Count and sums of the two score columns over exactly the approved reviews of the employer |
| `Ratings.RatingStore.RecalculateRatings` | internal/data/employers.go:440-466 | The difficulty average is within half a hundredth of the mean difficulty, the experience average of the mean experience, null iff no review is approved; no other cache changes; or the employer does not exist |
| `Ratings.RatingStore.RecalculateAll` | internal/worker/cron.go:333-377 | Every employer whose statement did not error is right again, the others are untouched, and the count is the number done |
| `SesEvents.AsIfExactlyOnce` | internal/worker/ses_events.go:84-103 | Once drained, redelivery even after deletion, failed inserts and deletions, retries, handlers stopped midway, sign-ups and purges leave the same ones suppressed, among the users there at the start and at the end, as exactly-once delivery in any order |
| `SesEvents.NothingLost` | internal/worker/ses_events.go:84-152 | In every reachable state each well-formed bounce or complaint is still in the queue or has a task row, however often it is received |
| `SesEvents.SuppressedForever` | internal/data/users.go:409-417 | A user once non-active is never active again while the row is there, over every run of events, sign-ups, purges and other user writes |
| `SesEvents.SuppressedExactly` | internal/data/users.go:409-417 | After every run a user who is there is suppressed iff so at the start or its address was marked while it was there |
| `SesEvents.DrainedSuppresses` | internal/app/workers.go:146-184 | In a drained state a user there from the start is suppressed iff suppressed before or the address is in a permanent bounce or a complaint sent; a later sign-up iff its address was marked after it signed up, which takes a hit |
| `SesEvents.HitExactly` | internal/app/workers.go:146-184 | An event hits a user iff it is a permanent bounce of the address or a complaint from it |
| `SesEvents.ExactlyOnceSuppresses` | internal/app/workers.go:146-184 | The same of the exactly-once reference, for every order |
| `SesEvents.MarkRecipients` | internal/app/workers.go:157-162 | Exactly the rows of the recipients before the first failing statement get the status |
| `SesEvents.HandleEvent` | internal/app/workers.go:146-184 | After a permanent bounce exactly the rows of its recipients are bounced, after a complaint complained; other bounces change nothing; a failure leaves a prefix |
| `SesEvents.Poller.ProcessMessage` | internal/worker/ses_events.go:84-152 | Inserts before deleting, and deletes only what was processed; a run of the pipeline |
| `SesEvents.Poller.PollBatch` | internal/worker/ses_events.go:84-103 | A batch, repeats included, is a run of the pipeline; exactly the messages processed and deleted leave the queue |
| `CronClaims.AtMostOncePerDate` | internal/worker/cron.go:98-115 | Whatever instances check and admins trigger, the body of a daily job starts at most once per Lagos date |
| `CronClaims.StartedExactly` | internal/worker/cron.go:89-115 | Over every run the body of a daily job is started on a date iff an admin triggered it on that date or some loop checked at 18 (reminders) or 3 (ratings) in Lagos, and then once |
| `CronClaims.ExactlyOnceWhenCovered` | internal/worker/cron.go:134-164 | It starts exactly once on a date whose target hour is covered by checks under an hour apart, other checks, triggers and failed claims notwithstanding |
| `CronClaims.SomeCheckInHour` | internal/worker/cron.go:48-68 | Checks under an hour apart do not miss an hour they span |
| `CronClaims.WithinHour` | internal/worker/cron.go:89-94 | The Lagos hour and date of a time against the interval it lies in |
| `CronClaims.HourInSeconds` | internal/worker/cron.go:89-94 | Lagos dates and hours as intervals of seconds, an hour ahead |
| `CronClaims.CleanupJob.LastStarted` | internal/worker/cron.go:201-211 | The latest start of all dates, from rows that hold the latest start of each |
| `CronClaims.CleanupJob.RecordStart` | internal/worker/cron.go:222-234 | Claims the date afresh and keeps the record of starts in order |
| `CronClaims.CleanupJob.MaybeRun` | internal/worker/cron.go:186-234 | Starts iff the hour is 0, 6, 12 or 18 and the last start was not in this hour of this day of the year; so a single loop starts at most once per target hour |
| `Reminders.GroupRecipients` | internal/data/bookmarks.go:201-241 | Flattening the recipients gives back the rows in order, neighbours differ, and rows sorted by user give one recipient per user, each with an address from that user's rows |
| `Reminders.EveryBookmarkIsARow` | internal/data/bookmarks.go:201-241 | Every bookmark of a recipient carries title, employer, opportunity and deadline of a row of that user |
| `Reminders.EveryRowIsABookmark` | internal/data/bookmarks.go:201-241 | Every row is a bookmark of the recipient of its user |
| `Reminders.RecipientAddress` | internal/data/bookmarks.go:221-228 | Address and name of a recipient are those of a row of that user |
| `Reminders.OneRecipientEach` | internal/data/bookmarks.go:201-241 | Rows in the order of their users give each user one recipient |
| `Reminders.EnqueueDeadlineReminders` | internal/worker/cron.go:381-418 | One task for each recipient whose insert works, in order, and their number |
| `Reminders.ClaimedTasksMailOnce` | internal/worker/cron.go:82-132 | With one date read per run, over any run of checks and triggers each (user, opportunity, deadline) is in at most one reminder task ever, and there once |
| `Reminders.ClaimedRunsMailOnce` | internal/worker/cron.go:98-119 | The same of the queried rows |
| `Reminders.TasksMailOnce` | internal/worker/cron.go:381-418 | Grouping and enqueueing repeat no reminder that the queries do not repeat |
| `Reminders.OnceEverExactly` | internal/data/bookmarks.go:171-197 | Reminders never repeat, whatever is bookmarked, iff no two runs query the same date |
| `Reminders.ScheduledRunsReadOneDate` | internal/worker/cron.go:89-94 | A scheduled run that queries within five hours of its check reads the date it claimed |
| `Reminders.StayingExactly` | internal/worker/worker.go:147-169 | A run repeats no reminder of any run that stays within its own date iff it queries before the midnight that ends the date it claimed |
| `Reminders.StayingRunsMailOnce` | internal/worker/cron.go:89-119 | If every run queries before that midnight no reminder repeats, whatever is bookmarked |
| `Reminders.MailOnceExactly` | internal/data/bookmarks.go:176-197 | In terms of the query times: reminders never repeat iff a midnight lies between any two |
| `Reminders.MidnightTriggerRepeats` | internal/worker/worker.go:147-169 | A manual trigger before midnight and the next scheduled run that remind of the same deadline |
| `CsvImport.ImportIsIdempotent` | internal/app/import_processor.go:96-162 | Importing an employers file twice gives the table of importing it once, row by row, versions apart, and inserts nothing the second time |
| `CsvImport.ImportBySlug` | internal/data/employers.go:484-505 | The fold of upserts in closed form: per slug the last row wins, verification flag and ratings survive, the version counts the rows |
| `CsvImport.LastRowWins` | internal/data/employers.go:484-505 | After an import the row of a slug holds, column by column, the last good row for it; verification flag, ratings and count are those from before |
| `CsvImport.ImportKeepsDetailsExactly` | internal/data/employers.go:484-502 | An import leaves offices, culture and social links of an employer alone iff no good row of the file is for its slug or all three were null; otherwise all three become null |
| `CsvImport.ImportLosesOffices` | internal/app/import_processor.go:133-162 | One employer with offices, a file with one row that repeats its name and industry, and the offices are gone |
| `CsvImport.ProcessImport` | internal/app/import_processor.go:21-129 | One attempt fails iff the file is unreadable or without a data row, the type unknown or a column missing, and then leaves the table alone; otherwise the table is the fold of the good rows, and if the last statement succeeds the job is completed with total = imported + errors and a report of exactly the failing rows numbered from 2 in order |
| `CsvImport.ImportableExactly` | internal/app/import_processor.go:71-94 | Which headers let a file get to its rows, column by column for each type |
| `CsvImport.RetryUnrecorded` | internal/app/import_processor.go:34-46 | If that last statement fails, the next attempt finds no file: the job ends failed, and its good rows stay imported |
| `CsvImport.ImportRows` | internal/app/import_processor.go:96-126 | imported + errors = rows, an exact error report, and the table after the good rows |
| `CsvImport.ImportRow` | internal/app/import_processor.go:101-125 | A short row or a refused one is reported and leaves the table as it is |
| `CsvImport.UpsertEmployerRow` | internal/app/import_processor.go:133-162 | A good row extends the fold by its upsert |
| `CsvImport.ReadEmployerRow` | internal/app/import_processor.go:133-158 | Each field is the cell under the last column of its own name; absent or empty optional cells, offices, culture and social links become null |
| `CsvImport.IndexColumns` | internal/app/import_processor.go:229-235 | Each column name leads to its last position |
| `CsvImport.RequireColumns` | internal/app/import_processor.go:237-244 | Nothing is missing iff every required column is indexed, else a missing one is named |
| `CsvImport.PositionsInBounds` | internal/app/import_processor.go:101-111 | Every column lookup, absent names included, stays inside a row the loop hands on |
| `CsvImport.EmployerKeyOfOpportunity` | internal/app/import_processor.go:164-169 | For every row handed on, the key it is matched by is its employer_slug cell if the header has that column, and otherwise its first cell |
| `CsvImport.IdIsTakenForSlug` | internal/app/import_processor.go:79-165 | The header of exactly the required columns passes the check, and the key of each row is its employer_id cell |
| `CsvImport.FindEmployerOfRow` | internal/app/import_processor.go:164-169 | The employer whose slug is that key, and none iff there is none |
| `OpportunityStatus.FiltersAgreeExactly` | internal/data/opportunities.go:217-443 | On every day every filter returns exactly the rows shown with its status, iff no active row opens more than a day after its deadline |
| `OpportunityStatus.FiltersPartition` | internal/data/opportunities.go:433-443 | Then the four filters split the table and open_or_upcoming is the union of two |
| `OpportunityStatus.StatusOnlyAdvances` | internal/data/opportunities.go:217-222 | As days pass an untouched row moves only from upcoming to open to closed |
| `OpportunityStatus.StatusMeans` | internal/data/opportunities.go:217-222 | When each of the four statuses is shown |
| `OpportunityStatus.Update` | internal/data/opportunities.go:327-371 | Sent dates and flag replace those of the row, the others stay |
| `OpportunityStatus.UpdateKeepsDatesExactly` | internal/data/opportunities.go:185-191 | A valid update keeps every well-dated row well dated iff it sends both dates, or none without reactivating, or withdraws the row |
| `OpportunityStatus.CreatedIsWellDated` | internal/data/opportunities.go:132-138 | The create check rules out the badly dated rows |
| `OpportunityStatus.UpdateCanMisfile` | internal/data/opportunities.go:185-191 | A valid update after which one row is listed as upcoming and as closed |
| `OpportunityStatus.ImportCanMisfile` | internal/app/import_processor.go:176-219 | An import row that the create check refuses is listed as upcoming and as closed |
| `Paging.PagesAreComplete` | internal/data/filters.go:34-41 | Pages 1 to the last put together are the whole result, nothing lost or doubled |
| `Paging.PageIsItsRows` | internal/data/filters.go:34-41 | Row by row: page p shows the rows from position (p-1) times size on, up to size of them |
| `Paging.MetadataMatchesPage` | internal/data/filters.go:52-72 | A page has rows iff it is not beyond the last; then the metadata counts the whole result, otherwise it is all zero |
| `Paging.OffsetIsSmall` | internal/data/filters.go:26-41 | Accepted parameters keep offset and limit below 10^9 |
| `Paging.ValidateFilters` | internal/data/filters.go:26-32 | No error iff page, size and sort are acceptable, and one error per bad field |
| `Paging.SortColumn` | internal/data/filters.go:16-32 | Column and direction give the sort value back: a leading dash is stripped and means descending; validated filters never panic |
| `Timeline.RoundTrip` | internal/data/timeline.go:14-42 | Parsing a printed timeline gives it back iff it fits 32 bits; others are rejected |
| `Timeline.AcceptedExactly` | internal/data/timeline.go:28-37 | A text is accepted iff it is a 32-bit numeral, one space and the word weeks |
| `Timeline.PrintedExamples` | internal/data/timeline.go:14-20 | Two printed timelines letter by letter |
| `Timeline.DecimalParses` | internal/data/timeline.go:15-37 | Printing a number and parsing it as a 32-bit one |
| `Timeline.SplitOnce` | internal/data/timeline.go:28-32 | Splitting at the only space gives the two parts back |
| `Timeline.Cell.UnmarshalJSON` | internal/data/timeline.go:22-42 | A rejected input leaves the value as it was |

## Left out

- HTTP, JSON envelopes, routing, CORS, logging, configuration and permissions; SMTP, R2, OAuth, hashing and random numbers: a send has no effect here, and hashes and ids are parameters that are never drawn twice.
- Row locks, isolation levels and SKIP LOCKED inside Postgres: each statement or transaction body is atomic. A claim that skips a row locked by another claim at that very moment is outside the model.
- Application and database clocks that differ: both are one clock.
- Created-at and updated-at columns, VARCHAR limits and other field validation. What the database or a row parser says about an import row is the parameter `verdict`.
- The permissions, bookmarks and applications that cascade with a purged user, and the mail tasks that account transactions insert.
- Google sign-in as a method of its own: it is `Register` without a token, or `ReadLogin` and `CommitLogin`, with the same gap between read and transaction.
- The session deletion in the unreachable branch of the session middleware.
- In `Ratings`, deleting an employer, which its reviews prevent.
- Review columns other than the two scores, and lost updates of reviews and opportunities, which have no version.
- What opportunity rows of an import do to the opportunity table; clashing slugs make a second import differ.
- The raw data quoted in row errors, and retries of an import task other than `CsvImport.RetryUnrecorded`.
- The reminder query: its joins and filters are the parameter `rows`.
- AccountStore.Store.ForgotPassword: one instant; in the protocol the lookup is no step, and the issue step may come at any time after it, for any user.
- AccountStore.Store.ChangePassword: the check of the current password before the transaction is no step; the transaction may come at any time after it, so its theorems hold however late it comes.
- AccountStore.Store.DeleteAccount: likewise.
- CsvImport.ProcessImport: the statements that mark a job as processing or failed are taken as succeeding.
- Reminders.ClaimedTasksMailOnce: speaks of queued tasks; a task whose handler is tried again may mail twice.
- AccountStore.Store.Authenticate: one instant; `ReadSession` and `LoadUser` are its two statements, and the theorems on admission put any steps between them.
- Several loops racing past the hour guard of the six-hourly jobs, and their manual triggers.
- The maximum receive count and dead-letter queue of SQS; malformed messages simply stay.
- Full-text search, ILIKE, analytics, assessments (the same compare-and-set as employers), bookmark and application CRUD, images, logo upload and mail templates.
- The employer listing: its tie-break by name is not unique, so pages are not slices of one order.
- The order among tasks with equal run_at, which is arbitrary.
- A claim statement that errors, after which the worker loop sleeps and polls again; a claim whose answer is lost is a claim followed by a lost write.
- TaskQueue.Pool.Run: one worker's loop until a schedule ends; that many loops interleave is covered by the protocol, whose steps the loop performs. Progress after shutdown is not claimed.
- Reminders.GroupRecipients: the pointer into the growing slice is an index, so its aliasing is not modelled.
- Users.UserModel.GetByEmail: assumes unique addresses, which the table guarantees and `Users.ApplyKeepsEmailsUnique` keeps.
- Timeline.RoundTrip: escape sequences and other quotes are the parameter `unescape`; printed timelines contain none.
- Ratings.AggregateIsTheMean: averages are whole hundredths with halves rounded up, not Postgres numerics.
