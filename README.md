# Reward ledger: daily limits, actions, referrals and withdrawals

This project models the core of a small PHP reward-points service. Users register, then earn
points through rate-limited daily actions: spinning a wheel, watching ads for points or for
extra spins, completing social-follow tasks, and referring other users. They redeem points
through tiered withdrawal requests. The core modelled here has these parts:

- the constants and the task catalog (`db_config.php`);
- `getCurrentUtcDate` and the lazy daily reset `checkAndResetDailyLimits`. On a user's first
  request of a new UTC day, the reset rewrites the spin, ad and task counters;
- the `register` handler: the validation chain, the uniqueness check, the derived referral
  code and the INSERT;
- the authentication gate in front of the protected actions;
- the handlers `getSpinsFromAd`, `spin`, `adWatched`, `get_tasks`, `completeTask`,
  `submitReferralCode` and `requestWithdrawal` (`api.php`).

Layout:

- `php.dfy` holds the two pieces of PHP semantics the handlers depend on. `Blank` models
  `empty()` on a string. `LexLess` models `<` on two strings.
- `utc_date.dfy` holds calendar dates and `gmdate('Y-m-d')` (`FormatDate`). It proves that the
  string order of formatted dates is the calendar order.
- `config.dfy` holds the constants, the catalog, and the two loops over the catalog.
- `users.dfy` holds the `users` row, the null row, and the daily reset as functions. It also
  holds the table invariant `WellFormed`.
- `actions.dfy` holds, for each action, the rule applied to the row that was read.
- `registration.dfy` holds the pure parts of `register`.
- `ledger.dfy` holds the class `Ledger`. Its fields are the two tables and the id counter, and
  it has one method per handler. Each handler that writes is split in two. The outer method
  holds the authentication gate and the reset and read. The inner method applies the rule to
  the row that was read, and is proved against the rule function from `actions.dfy`. Every
  method keeps the invariant `Valid()`.
- `scenarios.dfy` holds sequences of handler calls with the outcome the whole sequence must
  have.

How the model treats the source's behaviour:

- **A session id with no row.** In PHP, fetching a missing row yields `false`, and every
  column read from it is null. Null counts as 0, false or "" in the comparisons that follow.
  An `UPDATE ... WHERE user_id = ...` that matches no row changes nothing. The model reads
  such an id as `Users.NullRow` and writes to it with `Users.Write`, which is a no-op for a
  missing key. So for such an id, `getSpinsFromAd`, `adWatched` and `completeTask` answer
  success and change nothing, while `spin` and `requestWithdrawal` are refused. A referral
  submitted under such an id credits the referrer every time. The null row never records a
  referrer, so a repeated submission is never refused as "already submitted": two
  submissions give the referrer 40 points. `Scenarios.ReferralOnlyOnce` therefore speaks
  only of a user whose row exists.
- **The reset runs more than once.** `getSpinsFromAd`, `spin`, `adWatched`, `get_tasks`,
  `completeTask` and `requestWithdrawal` reset twice before the rule is applied: once
  directly, and once inside `getCurrentUserDataFromApi` (for example `api.php:207-208`).
  On success all of them except `get_tasks` re-read the row for the response, which resets
  a third time (`api.php:213`, `227`, `240`, `274`, `350`). `submitReferralCode` resets only
  once, in its success response (`api.php:308`). `Ledgers.Ledger.ResetAndRead` models the
  pair, and `Users.ResetIdempotent` shows every run after the first changes nothing on the
  same day.
- **Order of the steps.** `completeTask` checks the task id before any reset.
  `submitReferralCode` runs the reset only when it builds its success response, after the
  commit. The model keeps both orders.

Three behaviours of the code differ from what one might expect. The model
follows the code in each case:

- A new user's spins: one would expect the daily reset to give a new user 20 spins on the
  first request. `register` stores today's date as the last activity date
  (`api.php:150-152`), so on the day of registration no reset runs, and the user has the
  table's column defaults.
  `Registration.NewRow` states that no reset is due. `Scenarios.SpinsRunOut` shows the
  twenty spins on any later day.
- The bound on spins: 20 is the daily number of free spins (`db_config.php:36`). The code
  adds 2 spins for each spin-ad, up to 10 spin-ads a day. The comment at `db_config.php:37`
  counts these as 20 extra spins, and `api.php:209-212` adds them, so up to 40 spins a day
  are possible.
  The invariant `Users.RowOk` therefore bounds spins by `20 + 2 * spin_ads_watched_today`.
- The order of the withdrawal checks: one would expect a second request for the one-time
  4600 tier to fail as "already used" regardless of the balance. The code checks the balance first
  (`api.php:331-335`), so the second request fails with "Not enough points" when the balance
  no longer covers it. `Scenarios.LowTierPaidOnce` states both possibilities.

## Model

| member | source | states |
|---|---|---|
| Php.Blank | api.php:130 | `empty()` on a string (also `api.php:286`, `329`): only "" and "0" are blank, so every blank string has at most one character, and every longer string, "00" included, counts as present. |
| Php.LexLess | db_config.php:83 | PHP's `<` on two non-numeric strings never holds between equal strings. A proper prefix sorts first, and no string sorts before one of its own prefixes. |
| Php.LexLessIrreflexive | db_config.php:83 | No string sorts before itself, so a date stored today is never "earlier than today". |
| Php.LexLessTrichotomy | db_config.php:83 | PHP's string `<` is a strict total order: for any two strings exactly one of a<b, a==b, b<a holds. |
| Php.LexLessAppend | db_config.php:83 | Comparing two concatenations whose first parts have equal length compares the first parts, and the second parts when the first parts are equal. |
| UtcDate.DigitChar | db_config.php:54 | A value below 10 becomes a decimal digit character. |
| UtcDate.Digits | db_config.php:54 | Zero-padded decimal: exactly `w` digit characters. |
| UtcDate.FormatDate | db_config.php:52-56 | `gmdate('Y-m-d')` has 10 characters, dashes at positions 4 and 7, and digits everywhere else. |
| UtcDate.DigitsOrder | db_config.php:54 | For numbers that fit the width, the zero-padded strings compare as the numbers compare. |
| UtcDate.FormatDateOrder | db_config.php:83 | For valid dates, the formatted strings compare with `<` exactly as the dates compare in the calendar. |
| UtcDate.FormatDateInjective | db_config.php:52-56 | Two valid dates with the same formatted string are the same date. |
| Config.TaskWithId | db_config.php:44-50 | Lookup by key: a found entry is in the catalog and has that id; with no result, no entry has that id. |
| Config.FindTask | api.php:259-261 | `isset($TASKS_CONFIG[$taskId])` holds exactly for the ids in `TaskIds`; a found task is the catalog entry with that id. |
| Config.TaskIdsAreCatalogKeys | db_config.php:44-50 | The catalog's keys are exactly `TaskIds` = {1, ..., 5}. |
| Config.CatalogShape | db_config.php:44-50 | There are five tasks; an id is a task id exactly when it is 1 to 5; every task is worth 48 points. |
| Config.Completed | api.php:267 | `$status[(string)$taskId] ?? false`: a missing key reads as not completed, and a present key reads as its stored flag. |
| Config.InitialTaskStatus | db_config.php:84-90 | The loop builds a map with one `false` flag per catalog id and no other keys. |
| Config.TasksWithStatus | api.php:253 | The task list has the catalog's length and order; each entry's `completed` is the user's flag, and a missing key reads false. |
| Users.Read | api.php:105-107 | Fetching a user's row gives the stored row. For an id with no row it gives `NullRow`: no points, spins, ads, flags, date or referrer. |
| Users.Write | api.php:211-212 | `UPDATE users ... WHERE user_id = :id` replaces that row only and keeps every other row and the key set; with no matching row nothing changes. |
| Users.NeedsReset | db_config.php:83 | The reset is due when no date is stored, and never when today's date is already stored. |
| Users.AfterReset | db_config.php:58-117 | `checkAndResetDailyLimits` applied to the table: same keys, only that user's row can change, and the row is current for today afterwards. A current row leaves the table unchanged; a due row becomes `ResetDaily`. |
| Users.WriteKeepsWellFormed | db_config.php:94-108 | An UPDATE that keeps the row's identity and bounds, and links only to another existing user, keeps the table well formed. It leaves the key set unchanged. |
| Users.InsertKeepsWellFormed | api.php:151-152 | Inserting a row with a new id, no referrer, the bounds kept and no shared username, email or code keeps the table well formed. |
| Users.ResetDaily | db_config.php:94-108 | The reset sets spins to 20, both ad counters to 0, every task flag to false and the date to today; every other column is kept; the row bounds are preserved. |
| Users.ResetIdempotent | db_config.php:83-115 | A second reset on the same day changes nothing, and after a reset the row is not due again that day. |
| Users.ResetIffEarlierDay | db_config.php:83 | When a date is stored, the reset is due exactly when that date is an earlier calendar day than today. |
| Users.ResetDueOnLaterDay | db_config.php:83-108 | A row reset today is due again on every later day and on no day up to today. |
| Users.AfterResetKeepsWellFormed | db_config.php:58-117 | The reset keeps the users table well formed and keeps its key set. |
| Actions.SpinReward | api.php:224 | The prize is 2 to 15, and it is at most 10 exactly when the first draw is at most 80. |
| Actions.SpinStep | api.php:223-226 | Allowed exactly when a spin is left: the prize is added, one spin is used, nothing else changes. Refused with "no spins left" and no change otherwise. The bounds are preserved. |
| Actions.SpinAdStep | api.php:209-212 | Allowed exactly below 10 spin-ads: 2 more spins and one more spin-ad, nothing else. Refused with no change at the cap. The bounds are preserved. |
| Actions.AdStep | api.php:237-239 | Allowed exactly below 38 ads: 20 points and one more ad, nothing else. Refused with no change at the cap. The bounds are preserved. |
| Actions.CompleteTaskStep | api.php:266-272 | Allowed exactly when the task's flag is not set: that flag is set, the other flags are kept and the task's points are added. Refused with "already completed" otherwise. |
| Actions.CreditReferred | api.php:303-304 | The referred user gets 5 points and the link to the referrer; nothing else changes. |
| Actions.CreditReferrer | api.php:305-306 | The referrer gets 20 points and one more referral counted; nothing else changes. |
| Actions.Credited | api.php:303-306 | The committed referral: the referrer's row is credited, the referred user's row is credited if it exists, every other row is unchanged, and the key set is kept. |
| Actions.TierOf | api.php:326-327 | An amount is a tier exactly when it is 4600, 90000, 170000 or 305000; only 4600 is the low tier. |
| Actions.WithdrawalCheck | api.php:326-336 | The first failing check wins: invalid amount, then method/details missing, then not enough points, then low tier already used. The request passes exactly when none fails. |
| Actions.Withdrawn | api.php:339-345 | After a commit, points are down by the amount and the low-tier flag is set if it was set already or the amount is 4600; nothing else changes. |
| Actions.WithdrawalNeverOverdraws | api.php:331-341 | A request that passes the checks has a positive amount and leaves a non-negative balance. |
| Actions.LowTierOnlyOnce | api.php:334-345 | Once a 4600 withdrawal is committed, every later 4600 request is refused. |
| Registration.ValidateRegistration | api.php:130-137 | Each failure message holds exactly when its condition holds and all earlier ones pass: fields present, passwords equal, at least 6 characters, then a valid email. |
| Registration.AlnumOnly | api.php:145 | The result keeps only ASCII letters and digits and is no longer than the input. |
| Registration.AlnumOnlyAppend | api.php:145 | Filtering a concatenation filters each part in order. |
| Registration.AlnumOnlyCounts | api.php:145 | Every letter or digit is kept as often as it occurs, and every other character is dropped. |
| Registration.AlnumOnlyFixedPoint | api.php:145 | A string is unchanged by the filter exactly when it holds only letters and digits. |
| Registration.ReferralCode | api.php:145 | The code is "AST" followed by letters and digits only. |
| Registration.ReferralCodeStable | api.php:145 | Deriving a code again from a code's own tail gives the same code. |
| Registration.NameOrEmailInUse | api.php:139-141 | The SELECT with `username = ... OR email = ...` finds a row exactly when some existing row has that username or that email. |
| Registration.RegistrationConflict | api.php:139-142 | The corrected pre-INSERT check: a username or email in use reports "taken"; with no conflict, no row shares the username, the email or the derived code. |
| Registration.NewRow | api.php:144-152 | The inserted row has the derived code, no referrer and today's date. With valid defaults it is within bounds and has the low tier unused. No reset is due on the day it is created. |
| Registration.ReferralCodeNotInjective | api.php:145 | "a_b" and "ab" are given the same code "ASTab". |
| Registration.DuplicateCodeAsWritten | api.php:139-152 | As written, "a_b" passes the username/email check next to an existing "ab", and the insert leaves two rows with one referral code. |
| Registration.DuplicateCodeRefused | api.php:139-152 | With the code checked as well, the same registration is refused as "referral code taken". |
| Ledgers.WriteKeepsLedgerOk | api.php:211-212 | A one-row UPDATE that keeps identity, bounds and the low-tier flag keeps both tables consistent. |
| Ledgers.ResetKeepsLedgerOk | db_config.php:94-108 | The daily reset keeps both tables consistent. |
| Ledgers.InsertKeepsLedgerOk | api.php:151-152 | Registering under the next id (which is not yet in use) with a conflict-free, in-bounds row keeps both tables consistent. |
| Ledgers.CreditedKeepsLedgerOk | api.php:302-307 | Both referral UPDATEs, between two distinct users with the referred one not yet linked, keep both tables consistent. |
| Ledgers.WithdrawalKeepsLedgerOk | api.php:339-348 | A committed withdrawal that passed the checks keeps both tables consistent: the low-tier flag matches the 4600 requests, and each user has at most one of them. |
| Ledgers.Ledger.constructor | api.php:151 | The state the INSERT relies on: empty `users` and `withdrawals` tables, an auto-increment id starting at 1, and the column defaults the INSERT leaves to the table. The result is consistent. |
| Ledgers.Ledger.CheckAndResetDailyLimits | db_config.php:58-117 | Answers true exactly when the row exists and is due. The new table is `AfterReset`. The row is current afterwards. An unknown id changes nothing. |
| Ledgers.Ledger.GetCurrentUserData | api.php:103-120 | One reset, then the row as it now stands; the row is current for today. |
| Ledgers.Ledger.ResetAndRead | api.php:207-208 | Reset, then reset again and read: the table is that of a single reset, and the row returned is the stored one. |
| Ledgers.Ledger.Register | api.php:124-161 | Validation failures and conflicts are reported in order and change nothing; the conflict check is the corrected one, which also refuses a derived referral code already in use. Success happens exactly when neither occurs. On success the new row is stored under the next id, and the id counter advances. |
| Ledgers.Ledger.GetSpinsFromAd | api.php:199-217 | Without a session the request is refused. Otherwise, after the reset, the answer and the new table are those of `SpinAdStep` on the reset row. |
| Ledgers.Ledger.GrantSpinsFromAd | api.php:209-216 | The cap check and the UPDATE on the row just read match `SpinAdStep`. |
| Ledgers.Ledger.Spin | api.php:218-231 | Without a session the request is refused. Otherwise, after the reset, `SpinStep` with the drawn prize is applied. A success reports a prize of 2 to 15. |
| Ledgers.Ledger.SpendSpin | api.php:223-230 | The spin check, the draw and the UPDATE on the row just read match `SpinStep`; the prize is reported only on success. |
| Ledgers.Ledger.AdWatched | api.php:232-244 | Without a session the request is refused. Otherwise, after the reset, `AdStep` on the reset row is applied. |
| Ledgers.Ledger.CreditAdView | api.php:237-243 | The cap check and the UPDATE on the row just read match `AdStep`. |
| Ledgers.Ledger.GetTasks | api.php:245-255 | After the reset, the answer is the catalog in order with the user's current flags. |
| Ledgers.Ledger.CompleteTask | api.php:256-281 | An unknown or missing task id is refused before any reset and changes nothing. Otherwise `CompleteTaskStep` is applied after the reset, and a success returns the updated task list. |
| Ledgers.Ledger.MarkTaskDone | api.php:266-279 | The already-done check, the UPDATE and the re-read task list, on a row already reset for today. |
| Ledgers.Ledger.FindReferrer | api.php:297-299 | Finds a user other than the caller who holds the code, or reports that none exists. |
| Ledgers.Ledger.SubmitReferralCode | api.php:282-313 | The refusals, in order (empty code, already referred, no other holder of the code), change nothing. On success the holder of the code is credited together with the caller, then the caller's row is reset. The holder is unique because `Register` refuses a referral code already in use (see Findings). |
| Ledgers.Ledger.CreditReferral | api.php:302-307 | The two UPDATEs of the referral transaction produce `Credited`. |
| Ledgers.Ledger.DeductIfCovered | api.php:339-341 | The guarded decrement changes one row exactly when the row exists and its balance covers the amount, and no row otherwise. |
| Ledgers.Ledger.RequestWithdrawal | api.php:314-356 | After the reset, a failed check reports its reason and changes nothing more. A passing request deducts the amount, marks the low tier and appends one pending request. |
| Ledgers.Ledger.CommitWithdrawal | api.php:338-352 | The transaction's effect: the row becomes `Withdrawn`, and exactly one pending request is appended. |
| Scenarios.ReferralOnlyOnce | api.php:286-295 | After an accepted code, the same user's next submission is refused: as empty, or as already submitted. |
| Scenarios.LowTierPaidOnce | api.php:331-335 | After a committed 4600 withdrawal, a second 4600 request is refused, for lack of points or as already used. |
| Scenarios.BalanceSpentOnce | api.php:331-341 | With a balance below twice the amount, a second withdrawal of that amount is refused for lack of points. |
| Scenarios.SpinsRunOut | api.php:218-231 | On any day after the stored one, and for any in-range draws, twenty spins succeed and the twenty-first is refused. |
| Scenarios.TaskDoneOncePerDay | api.php:266-267 | A task completed today is refused as already completed when tried again the same day. |
| Scenarios.TasksOpenOnLaterDay | db_config.php:83-99 | A user last active today sees every task open again on any later day. |

## Left out

- The HTTP and JSON transport, the output buffering and the error and shutdown handlers
  (`api.php:1-100`) are not modelled, nor are the response messages and the `userData`
  snapshot in responses. Outcomes are the `Outcomes.Failure` values, each named after its
  message.
- Sessions are not modelled beyond the user id: a handler receives `Option<UserId>`, where
  `None` means no session. The `login` and `check_session` handlers are outside this model.
- Stored passwords: `password_hash` and `password_verify` are foreign calls. The hash is an
  input of `Ledgers.Ledger.Register`.
- Email validation: `filter_var(..., FILTER_VALIDATE_EMAIL)` is an input, `emailValid`.
- Randomness: the three `mt_rand` draws of `spin` are inputs, within their ranges. The
  80%/20% split of prizes is a property of the draws' distribution. The model proves only
  that a prize is at most 10 exactly when the first draw is at most 80.
- The clock: `gmdate` reads it. The current date is an input of every handler, read once
  per request. The source reads the clock at every reset (`db_config.php:67`), so a request
  that crosses midnight can see two different dates; that case is not modelled.
- Concurrency: requests are modelled one at a time. Without another writer, the guarded
  decrement of `requestWithdrawal` always matches its row once the checks have passed. The
  rollback branch after it ("Withdrawal failed") therefore cannot be taken, and
  `Ledgers.Ledger.CommitWithdrawal` asserts as much.
- Storage faults are not modelled: a failed INSERT in `register`, exceptions inside
  transactions, and a failed `checkAndResetDailyLimits` query. With PDO in exception mode
  (`db_config.php:25`), a failed INSERT throws rather than taking the "Registration failed"
  branch.
- Tables and JSON: the `users` table's definition is not part of this model. Its column
  defaults are a constructor parameter, `ColumnDefaults`. `DefaultsOk` assumes they respect
  the bounds and that `used_4600_withdrawal` defaults to false. `NewRow` assumes
  `referred_by_user_id` defaults to NULL. MySQL string
  collation (case-insensitive comparison of usernames, emails and codes) is not modelled;
  strings compare exactly.
- Stored values: the JSON encoding of `daily_tasks_status` is modelled as a map from task id
  to flag, with corrupt JSON decoding to an empty map left out. The keys are integers here,
  while the source uses numeric strings. The withdrawal amount is cast with `(int)`
  (`api.php:318`) and is an integer input. The task id is not cast (`api.php:259`). It is
  modelled as an optional integer, so PHP's conversion of string, float or boolean array
  keys in `isset($TASKS_CONFIG[$taskId])` is not modelled.
- Ledgers.Ledger.CompleteTask: its guarantees hold only for integer task ids. On a reading of
  the text (not executed), a JSON number with a fraction breaks them in the source. With
  `taskId` 1.5, `isset($TASKS_CONFIG[1.5])` truncates the key to 1 and passes
  (`api.php:261`). The error handler only logs the deprecation (`api.php:44-59`). The flag is
  read and written under the string key "1.5" (`api.php:267`, `270`, `273`), so "already
  completed" never fires. `$TASKS_CONFIG[1.5]['points']` pays task 1's 48 points
  (`api.php:271`). Each new fraction (1.25, 1.125, ...) pays task 1 again on the same day. A
  non-catalog id is thus not refused, and a task can be paid more than once a day.
  `Actions.CompleteTaskStep` and `Scenarios.TaskDoneOncePerDay` share this limit, because
  the id is an integer.
- `strlen` counts bytes, while the model counts characters. Integers are unbounded: MySQL
  `INT` overflow of points is not modelled.
- Ledgers.Ledger.Register: it refuses a registration whose derived referral code is already
  in use (`ReferralCodeTaken`). The source checks only the username and the email
  (`api.php:139-142`) and inserts such a code. The model uses the corrected check, so that
  referral codes stay unique (see Findings). That uniqueness is what makes the referrer found
  by `submitReferralCode` unique.
- Ledgers.Ledger.RequestWithdrawal: the request row takes the username from the users row
  read by the handler, not from `$_SESSION['username']`. The two agree because usernames are
  never changed.
- The handlers' success responses re-read the row (`getCurrentUserDataFromApi`), which runs
  the reset once more. The model keeps this re-read where it matters or has an effect:
  completeTask, submitReferralCode and requestWithdrawal. It drops it after
  `getSpinsFromAd`, `spin` and `adWatched`, where it changes nothing because the row is
  already current.

## Findings

| source | as written | input that shows it | evidently intended | confidence | as-written member | corrected member |
|---|---|---|---|---|---|---|
| api.php:139-152 | Before the INSERT, only the username and the email are checked for uniqueness. The referral code "AST" + letters and digits of the username is inserted unchecked. | An existing user "ab" (code "ASTab"); then `register` with username "a_b" and a new email gets the same code "ASTab". | Referral codes identify one user: `submitReferralCode` looks its referrer up by code. A derived code already in use should be refused, or made unique. | not executed; if the table has a UNIQUE index on `referral_code`, the INSERT throws instead, because PDO runs in exception mode (`db_config.php:25`), and the request ends in the exception handler's "An unexpected application error occurred." (`api.php:27-43`). | Registration.DuplicateCodeAsWritten | Registration.DuplicateCodeRefused |
