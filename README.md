# Login throttling and user listing, modelled in Dafny

This project models two parts of a small Express/MongoDB user service.

**The login guard** (module `AuthenticationService`, file `authentication.dfy`).
The service keeps a process-wide ledger from email to `{attempts, timestamp}`.
An email is blocked when it has an entry with at least 5 failures and its
latest failure is less than 30 minutes (1,800,000 ms) old. A blocked attempt is
refused before any user lookup or password comparison and changes nothing.
Any other attempt always runs the password comparison. It compares against the
user's stored hash, or against a fixed decoy string when no user has that
email, so that timing does not reveal which emails exist. A login succeeds only
when the user exists and the password matches. Then the ledger entry is
deleted and the caller gets the email, name, id and a token for the user. On a
failure the entry's counter goes up by one (from 0 if absent), its timestamp
becomes the current time, and the result is `null`.

The ledger is the field `loginAttemptsLog` of class `AccessGuard`. Its method
`CheckLoginCredentials` updates it in place. The method is proved against the
function `Attempt`, which gives the result, the new ledger and the stored
password the comparison ran against. The lemmas are about `Attempt` and about
`Replay`, which handles a sequence of requests in order. The three outcomes are
`Admitted(payload)`, `Rejected` (the service's `null`) and `Blocked` (the
service's thrown "Too many failed login attempts." error).

The password-hash comparison (`passwordMatched`) and `generateToken` are
function parameters `matches` and `token` that the model leaves unconstrained.
The clock `Date.now()` is the parameter `now`, in milliseconds. The user store
is a `map` from email to user.

**The user listings** (module `UsersService`, file `users.dfy`). `GetUsers`
copies the repository's users into a new list, keeping only id, name and email
and the original order. `GetUsersWithNumbering` builds the filter descriptor
(one field against a pattern, only when both the field and the key are truthy)
and the sort descriptor (`name` only for the exact string `"name"`, else
`email`; direction `-1` only for `"desc"`, else `1`). It then computes
`skip = (page - 1) * size`, takes at most `size` records from that index, and
sets `total_pages = ceil(total / size)`, `has_previous_page = page > 1` and
`has_next_page = page < total_pages`. The database is a function `find` from
the two descriptors to every matching record in sorted order. The document count
is the length of that sequence. `Math.ceil` on a quotient is integer ceiling
division.

A blocked attempt throws before the ledger is touched
(authentication-service.js:18-25), so attempts made during a block never
extend it (`BlockedAttemptsDoNotExtend`). Only a failure after the cooldown
has run out starts a new 30-minute block (`FailureAfterCooldownBlocksAgain`),
because the counter is never reset by time.

## Model

| member | source | states |
|---|---|---|
| `AuthenticationService.AccessGuard.constructor` | src/api/components/authentication/authentication-service.js:7 | a new guard starts with an empty ledger |
| `AuthenticationService.AccessGuard.CheckLoginCredentials` | src/api/components/authentication/authentication-service.js:15-59 | the result, the new ledger and the compared password are those of `Attempt` on the old ledger; the ledger keeps every entry at one failure or more; a blocked attempt leaves the ledger unchanged; after success the email has no entry; after a failure its entry carries `now`; no other email's entry changes |
| `AuthenticationService.Clear` | src/api/components/authentication/authentication-service.js:40 | the success update removes the email's entry and keeps every other entry as it was |
| `AuthenticationService.RecordFailure` | src/api/components/authentication/authentication-service.js:48-53 | the failure update makes the email's counter the previous count plus one (one if absent) with timestamp `now`, adds no other key and keeps every other entry |
| `AuthenticationService.IsBlocked` | src/api/components/authentication/authentication-service.js:18-23 | the guard condition: an entry with at least 5 failures whose latest is under 1,800,000 ms old; no entry, fewer than 5 failures, or an expired cooldown is never blocked |
| `AuthenticationService.StoredPasswordOrDecoy` | src/api/components/authentication/authentication-service.js:33 | definition: the stored password of the user with that email, or the decoy string `<RANDOM_PASSWORD_FILLER>` when there is none |
| `AuthenticationService.CredentialsMatch` | src/api/components/authentication/authentication-service.js:39 | definition: a user with that email exists and the comparison of the password with its stored one succeeds |
| `AuthenticationService.Attempt` | src/api/components/authentication/authentication-service.js:15-59 | one whole attempt: a comparison runs exactly when it is not blocked, and then against the stored password or the decoy; admission implies matching credentials; every entry stays at one failure or more |
| `AuthenticationService.Replay` | src/api/components/authentication/authentication-service.js:7-59 | definition: successive calls share one ledger, each request handled by `Attempt` on the ledger the previous ones left |
| `AuthenticationService.BlockedIff` | src/api/components/authentication/authentication-service.js:17-25 | an attempt is blocked exactly when an entry exists with at least 5 failures and less than 1,800,000 ms since the latest; a blocked attempt changes nothing and runs no comparison |
| `AuthenticationService.ComparisonAlwaysRuns` | src/api/components/authentication/authentication-service.js:27-34 | a comparison runs exactly when the attempt is not blocked; it runs against the user's stored password, or against the decoy when the email is unknown |
| `AuthenticationService.AdmittedIff` | src/api/components/authentication/authentication-service.js:39-46 | admission happens exactly when the attempt is not blocked, the user exists and the password matches; an unknown email is never admitted; the payload is the user's email, name, id and `token(email, id)` |
| `AuthenticationService.SuccessDeletesEntry` | src/api/components/authentication/authentication-service.js:39-40 | a successful login leaves no entry for the email (deleted, not reset to zero) |
| `AuthenticationService.FailureCounts` | src/api/components/authentication/authentication-service.js:47-54 | a failed attempt, for an unknown email or a wrong password, is rejected and leaves the entry at previous count plus one with timestamp `now` |
| `AuthenticationService.UnknownEmailLooksLikeWrongPassword` | src/api/components/authentication/authentication-service.js:29-54 | an unknown email and a wrong password give the same result and the same ledger, and both run a comparison |
| `AuthenticationService.AttemptPreservesLedger` | src/api/components/authentication/authentication-service.js:40-53 | one attempt keeps every entry at one failure or more and changes no entry but the one for its own email |
| `AuthenticationService.FailureAfterCooldownBlocksAgain` | src/api/components/authentication/authentication-service.js:18-53 | once a block has run out, the counter is still at 5 or more; one more failure raises it by one and blocks the email from then on for exactly 1,800,000 ms |
| `AuthenticationService.ReplayKeepsLedgerValid` | src/api/components/authentication/authentication-service.js:48-53 | any sequence of attempts keeps every entry at one failure or more |
| `AuthenticationService.ReplayOtherEmailsUntouched` | src/api/components/authentication/authentication-service.js:18-53 | attempts with other emails leave an email's entry, and whether it is blocked at any time, unchanged |
| `AuthenticationService.FailuresAccumulate` | src/api/components/authentication/authentication-service.js:18-53 | from no entry, up to 5 failures in a row are never blocked and leave an entry counting them, stamped with the last one's time |
| `AuthenticationService.LimitFailuresThenBlocked` | src/api/components/authentication/authentication-service.js:5-25 | after 5 failures in a row from no entry, any attempt within 30 minutes of the last one is blocked, runs no comparison and changes nothing, even with the right password |
| `AuthenticationService.BlockedAttemptsDoNotExtend` | src/api/components/authentication/authentication-service.js:18-25 | attempts made while blocked leave the ledger unchanged, so the block still ends 30 minutes after the failure that caused it |
| `AuthenticationService.LockoutScenario` | src/api/components/authentication/authentication-service.js:5-53 | five wrong passwords at minutes 0 to 4 give 5 failures stamped at minute 4; an attempt at minute 10 is blocked; the right password at minute 35 is admitted and removes the entry |
| `UsersService.GetUsers` | src/api/components/users/users-service.js:9-23 | the result has the repository list's length and order, and element i holds the id, name and email of input element i |
| `UsersService.Project` | src/api/components/users/users-service.js:15-19 | definition: a user as the service shows it, its id, name and email, without the password (also the `users.map` of lines 225-231) |
| `UsersService.Truthy` | src/api/components/users/users-service.js:188 | definition: JavaScript truthiness of an optional string, present and not empty |
| `UsersService.Skip` | src/api/components/users/users-service.js:205 | the records before page `pageNumbering` are `(pageNumbering - 1) * pageSizing`, and none exactly for the first page |
| `UsersService.BuildQuery` | src/api/components/users/users-service.js:187-190 | the filter constrains a field exactly when both the field name and the key are truthy, and then it is that field against that key |
| `UsersService.BuildSort` | src/api/components/users/users-service.js:192-203 | the key is name exactly when the field is `"name"` and email otherwise; the direction is -1 exactly when the order is `"desc"` and 1 otherwise |
| `UsersService.CeilDiv` | src/api/components/users/users-service.js:211 | the page count is the least whole number of pages of the given size that hold all records |
| `UsersService.Window` | src/api/components/users/users-service.js:206-209 | skip and limit select at most `limit` records, consecutive from index `skip`, and none when `skip` is past the end |
| `UsersService.GetUsersWithNumbering` | src/api/components/users/users-service.js:178-237 | page number and size are echoed; `count` is the number of records returned and at most the page size; `total_pages` is the least number of pages that hold every match; element k is the id, name and email of match `skip + k` |
| `UsersService.CeilDivGreater` | src/api/components/users/users-service.js:211-224 | a page number is below the page count exactly when more records exist than that many full pages hold |
| `UsersService.PageNeighbours` | src/api/components/users/users-service.js:205-224 | `has_previous_page` holds exactly when `skip > 0`; `has_next_page` holds exactly when matching records remain after this page |
| `UsersService.PageCount` | src/api/components/users/users-service.js:205-220 | pages before the last are full, the last holds the remaining records, and pages after it are empty |
| `UsersService.EveryRecordOnItsPage` | src/api/components/users/users-service.js:205-231 | match `i` is element `i % size` of page `i / size + 1`, and that page is within `total_pages` |

## Left out

- I/O and asynchrony: the user lookup, the password hashing, the token signing and the database queries are abstract parameters. Each login attempt is one atomic step, so concurrent attempts on the shared ledger are not modelled.
- The try/catch blocks that rethrow (authentication-service.js:56-58, users-service.js:234-236) add no behaviour. Errors from the database or the crypto primitives are not modelled.
- The ledger is a plain JavaScript object. Keys such as `constructor` or `toString` would read inherited members, and such an email's counter would become `NaN`. The model uses a map, so every email starts with no entry.
- The `now` import from lodash (authentication-service.js:4) is unused in the JavaScript code and is left out.
- MongoDB filter semantics (`$regex` with option `m`) and the ordering the sort descriptor produces belong to the database. `find` stands for them, and `countDocuments` is taken as the length of the same result.
- EveryRecordOnItsPage: `find` is one fixed result sequence per filter and sort, shared by every page request and by the count. In the service each page is a separate query and count. MongoDB does not keep ties in the sort key (two users with the same name) in a stable order across queries, and the collection can change between them. So the tiling holds only for a unique sort key and an unchanged collection.
- `GetUsersWithNumbering` uses `user._id` and `GetUsers` uses `user.id`. Both are the record's `id` field here.
- GetUsersWithNumbering: requires `pageNumbering >= 1`. A smaller page number gives a negative skip, which is passed to the database unchecked. It also requires `pageSizing > 0`, where the JavaScript code would compute `Infinity` or `NaN` pages.
- The other users-service operations (`getUser`, `createUser`, `updateUser`, `deleteUser`, `emailIsRegistered`, `checkPassword`, `changePassword`) only pass through to the repository and are not modelled.
- The client-data handlers, their schema and the route wiring are not part of this model.
