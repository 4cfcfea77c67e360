# softeng-platform user, auth, admin and config core in Dafny

This project models the parts of the softeng-platform REST backend that carry real
behaviour. It covers the user table and its repository, the authentication service
(register, login, forgotten password), the profile service, the input validators, the
moderation queue dispatch and the configuration loader. Everything is written as pure
functions over immutable records. The one exception is the substring search `contains`,
which is a method with a loop.

Modules, one per source file:

- `Results` (results.dfy): Go's `(value, error)` returns as `Result<T>` and nil-able pointers as `Option<T>`.
- `Model` (model.dfy): `User`, `RegisterRequest`, `LoginRequest` and `UpdateProfileRequest`.
- `UserRepository` (user_repository.dfy): the `users` table is a `map<int, User>` plus the
  next AUTO_INCREMENT id. The subset type `Store` keeps every row under its own id, below
  that counter. The driver's behaviour on one statement is a `DbFault` parameter:
  - it succeeds;
  - it fails to run (`ExecContext` or `Scan` returns an error);
  - it runs and then fails to report its result (`LastInsertId` or `RowsAffected` returns
    an error after the write has already happened).

  A single-row SELECT returns the matching row with the least id.
- `AuthService` (auth_service.dfy): `Register`, `Login`, `ForgotPassword`, the stubbed
  code checks, and `contains` (the `Contains` method, checked against the reference
  predicate `Occurs`). Password hashing is a `Hasher` parameter: a deterministic function,
  assumed (`Sound`) to accept a password against its own hash.
- `UserService` (user_service.dfy): `GetProfile`, the `UpdateProfile` field merge,
  `UpdateEmail` and `UpdatePassword` (neither writes anything), and `UpdateResourceStatus`.
- `Validator` (validator.dfy): `validatePassword`, `validateUsername` and `ValidateEmail`
  as predicates. Go's `len` counts UTF-8 bytes, which is modelled by `Utf8Len`.
- `AdminService` (admin_service.dfy): `GetPending` dispatches on the keys 工具 (tool),
  课程 (course), 项目 (project) and 评论 (comment) and builds the `{total, cursor, data}`
  envelope. `ReviewItem` is also here.
- `Config` (config.dfy): `getEnv`, `buildDatabaseURL` and `LoadConfig` over an environment map.

The clock (`time.Now()`) is a `now` parameter. Go's zero `time.Time` is `ZeroTime`.

## Model

| member | source | states |
|---|---|---|
| UserRepository.Create | softeng-platform/internal/repository/user.go:29-58 | The new row gets the next id, which was not in use before. It carries the caller's username, nickname, email, password, avatar, description, face photo and role, and both timestamps are `now`. All older rows are kept. On success the issued id is returned. If the statement fails, nothing changes. If `LastInsertId` fails, the row is still written but the error is returned. |
| UserRepository.GetByID | softeng-platform/internal/repository/user.go:61-90 | Without a fault, returns the row stored under the id, or `Ok(None)` (the Go `(nil, nil)`) when there is none. With a fault, returns "failed to get user by id: " plus the cause. |
| UserRepository.GetByUsername | softeng-platform/internal/repository/user.go:92-121 | Returns `Ok(None)` exactly when there is no fault and no row has the username, so absence is not an error. A found row is stored under its id, has that username, and no row with a smaller id has it. An error is returned exactly when there is a fault. |
| UserRepository.GetByEmail | softeng-platform/internal/repository/user.go:123-152 | The same as GetByUsername, for the email column. |
| UserRepository.Update | softeng-platform/internal/repository/user.go:154-183 | Writes only nickname, avatar, description, face photo and updated_at of the row `WHERE id = u.id`. Id, username, email, password, role and created_at stay as they were. Other rows and the id counter are unchanged. A missing id gives "user not found" and changes nothing. Statement and rows-affected failures give their own messages. |
| UserRepository.UpdatePassword | softeng-platform/internal/repository/user.go:185-202 | Changes only the password and updated_at of the target row and leaves every other row alone. A missing id gives "user not found" and changes nothing. |
| AuthService.Contains | softeng-platform/internal/service/auth.go:130-137 | The loop returns true iff `sub` occurs contiguously in `s` at some index from 0 to \|s\|-\|sub\|. This makes it true for an empty `sub` and false when `sub` is longer than `s`. |
| AuthService.OccursSingleton | softeng-platform/internal/service/auth.go:75 | Searching for the one-character pattern "@" is the same as testing whether '@' is in the string. |
| AuthService.Register | softeng-platform/internal/service/auth.go:25-68 | A taken username is reported as "username already exists" before the email is checked, and the store is unchanged. When the username is free or its lookup failed, a taken email gives "email already exists" with the store unchanged. Registration succeeds iff each lookup that answered found nothing, hashing succeeded and the INSERT succeeded, so lookup errors count as "not taken". The store changes only when both checks passed and hashing succeeded. After the checks pass, a hashing error is returned as is and leaves the store unchanged. A failed INSERT gives "failed to create user: " plus the cause and leaves the store unchanged. A failed `LastInsertId` gives "failed to get last insert id: " plus the cause. On success exactly one row is added under the next id: username and email from the request, nickname equal to the username, role "user", the password hash of the request password, and empty profile fields. |
| AuthService.RegisterPreservesUniqueness | softeng-platform/internal/service/auth.go:25-37 | When both lookups answer, a registration never adds a second row with an existing username or email. |
| AuthService.RegisterAllPreservesUniqueness | softeng-platform/internal/service/auth.go:25-68 | Any sequence of fault-free registrations keeps usernames and emails unique. |
| AuthService.RegisterLookupFaultAdmitsDuplicate | softeng-platform/internal/service/auth.go:27-30 | The username lookup's error is discarded. So when the username is taken, the email is free and the username lookup fails, the registration goes ahead and succeeds. In the model, whose table has no UNIQUE keys, two rows then share the username. |
| AuthService.RegisterIgnoresCodes | softeng-platform/internal/service/auth.go:38-46 | The email and invitation codes are never checked: the outcome of a registration does not depend on them. |
| AuthService.Login | softeng-platform/internal/service/auth.go:70-91 | Every failure reports the same "invalid credentials", whether the user is missing, the lookup failed or the password is wrong. A success returns the stored row. That row is found by email if the identifier contains '@' and by username otherwise, and its hash checks against the given password. If logins are unique, login succeeds iff some row matches the identifier and its password checks. |
| AuthService.RegisterThenLoginByUsername | softeng-platform/internal/service/auth.go:25-91 | After a fault-free registration with a username containing no '@', logging in with that username and password returns the new user. |
| AuthService.RegisterThenLoginByEmail | softeng-platform/internal/service/auth.go:25-91 | After a fault-free registration, logging in with the email address and password returns the new user. |
| AuthService.ForgotPassword | softeng-platform/internal/service/auth.go:93-113 | An unknown email or a failed lookup gives "user not found" and leaves the store unchanged. The call succeeds iff the email is known, hashing succeeds and the update succeeds. Any change to the store replaces the password and updated_at of one row with that email and nothing else. A failed UPDATE statement leaves the store unchanged. When the email is known, a hashing error is returned as is, a failed UPDATE gives "failed to update password: " plus the cause, and a failed row count gives "failed to get rows affected: " plus the cause. When the email is known, hashing works and the UPDATE runs, the first row with that email gets the new hash and `now`. |
| AuthService.ForgotPasswordThenLogin | softeng-platform/internal/service/auth.go:70-113 | After a fault-free reset, logging in with the email address and the new password succeeds. |
| AuthService.ForgotPasswordIgnoresCode | softeng-platform/internal/service/auth.go:95-98 | The reset code is never checked: the outcome does not depend on it. |
| UserService.GetProfile | softeng-platform/internal/service/user.go:29-31 | Without a fault, returns the stored row for the id, or `None` when there is no row. With a fault, returns an error. |
| UserService.Merge | softeng-platform/internal/service/user.go:39-51 | Each of nickname, avatar, description and face photo is replaced by the request field iff that field is non-empty. Id, username, email, password, role and timestamps are never touched. |
| UserService.MergeIdempotent | softeng-platform/internal/service/user.go:39-51 | Merging the same request twice gives the same record as merging it once. |
| UserService.MergeEmptyRequest | softeng-platform/internal/service/user.go:39-51 | An all-empty request leaves the record unchanged. |
| UserService.UpdateProfileAsWritten | softeng-platform/internal/service/user.go:33-55 | The source as written dereferences nil exactly when the lookup answers and no row has the id. |
| UserService.UpdateProfileAsWrittenPanicsOnMissingUser | softeng-platform/internal/service/user.go:34-41 | Updating the profile of id 7 in an empty table dereferences nil. |
| UserService.UpdateProfile | softeng-platform/internal/service/user.go:33-55 | A lookup fault returns GetByID's error unchanged, "failed to get user by id: " plus the cause, with no user and the store unchanged. A missing user gives "user not found". Otherwise the merged user is returned. The error is none when `Update` succeeds, "failed to update user: " plus the cause when the statement fails, and "failed to get rows affected: " plus the cause when the row count fails. The stored row becomes the merged record stamped with `now` unless the statement failed. All other rows are unchanged. |
| UserService.UpdateProfileAgreesWithSource | softeng-platform/internal/service/user.go:33-55 | Wherever the source returns normally, the corrected operation returns the same store and reply. |
| UserService.ProfileAfterUpdate | softeng-platform/internal/service/user.go:33-55 | After a successful update, `GetProfile` returns the merged record with id, username, email, password and role unchanged. |
| UserService.UpdateProfileTwice | softeng-platform/internal/service/user.go:39-54 | Sending the same profile request twice stores the same table as sending it once. |
| UserService.EmptyProfileUpdate | softeng-platform/internal/service/user.go:39-54 | An all-empty request changes nothing except updated_at. |
| UserService.UpdateEmail | softeng-platform/internal/service/user.go:112-119 | Returns the current record for the id, still with its old email, and writes nothing. |
| UserService.UpdatePassword | softeng-platform/internal/service/user.go:121-128 | Returns the current record for the id, still with its old password hash, and writes nothing. |
| UserService.UpdateResourceStatus | softeng-platform/internal/service/user.go:97-110 | Always succeeds with message "success". It echoes the resource id and type, reports the action as the new status and always reports "published" as the old status. |
| Validator.ValidatePassword | softeng-platform/internal/utils/validator.go:26-45 | Defined as: the UTF-8 byte length is at least 6, and the scan of the characters sets both the letter flag and the number flag. |
| Validator.ValidateUsername | softeng-platform/internal/utils/validator.go:48-58 | Defined as: the UTF-8 byte length is between 3 and 20, and the whole string matches `^[a-zA-Z0-9_]+$`. |
| Validator.ValidateEmail | softeng-platform/internal/utils/validator.go:61-65 | Defined as: the string splits at an '@' and a later '.' into a non-empty local part over [a-zA-Z0-9._%+-], a non-empty domain over [a-zA-Z0-9.-], and a suffix of two or more ASCII letters, which is what `^[a-zA-Z0-9._%+-]+@[a-zA-Z0-9.-]+\.[a-zA-Z]{2,}$` matches. |
| Validator.Utf8Len | softeng-platform/internal/utils/validator.go:30 | The byte length lies between the character count and four times the character count. It equals the character count iff every character is ASCII. |
| Validator.ScanClasses | softeng-platform/internal/utils/validator.go:35-44 | The letter flag is set iff some character is a letter, and the number flag iff some character is a digit. Other characters never affect either flag. |
| Validator.ValidatePasswordMeaning | softeng-platform/internal/utils/validator.go:26-45 | A password is accepted iff it is at least 6 bytes long, has a letter and has a digit. |
| Validator.ShortPasswordRejected | softeng-platform/internal/utils/validator.go:29-32 | A password shorter than 6 bytes is rejected. |
| Validator.MultibytePasswordAccepted | softeng-platform/internal/utils/validator.go:30-32 | The bound counts bytes, not characters: "密码a1" has four characters and is accepted. |
| Validator.AppendKeepsPasswordValid | softeng-platform/internal/utils/validator.go:35-44 | Appending any character to an accepted password keeps it accepted. |
| Validator.ValidateUsernameMeaning | softeng-platform/internal/utils/validator.go:48-58 | A username is accepted iff it has 3 to 20 characters and each is in [a-zA-Z0-9_]. |
| Validator.UsernameLengthBounds | softeng-platform/internal/utils/validator.go:52-54 | Fewer than 3 or more than 20 characters is rejected. |
| Validator.EmailHasOneAt | softeng-platform/internal/utils/validator.go:61-65 | Every accepted address has exactly one '@', and the local part before it is non-empty. |
| Validator.EmailEndsInLetters | softeng-platform/internal/utils/validator.go:62 | Every accepted address is at least 6 characters long and ends with '.' followed by two or more ASCII letters. |
| Validator.SampleEmails | softeng-platform/internal/utils/validator.go:61-65 | "user1@example.com" is accepted and "@example.com" is rejected. |
| AdminService.GetPending | softeng-platform/internal/service/admin.go:27-54 | The data comes from the tool, course or project repository exactly for 工具, 课程 or 项目. 评论 and every other type give an empty page and no error. On success `total` is the length of `data` and `cursor` is the input cursor. A repository error is passed on and no envelope is built. |
| AdminService.GetPendingReadsOneRepository | softeng-platform/internal/service/admin.go:31-37 | 工具, 课程 and 项目 each consult only their own repository: two sets of repositories that give the same answer for that family give the same page. |
| AdminService.GetPendingIgnoresSort | softeng-platform/internal/service/admin.go:27-54 | The `sort` argument has no effect on the result. |
| AdminService.ReviewItem | softeng-platform/internal/service/admin.go:56-60 | Always succeeds, for every input. |
| Config.GetEnv | softeng-platform/internal/config/config.go:39-44 | Returns a set, non-empty variable's value. An unset or empty variable gives the default. A non-empty default therefore always gives a non-empty result. |
| Config.BuildDatabaseURL | softeng-platform/internal/config/config.go:24-37 | Defined as: DB_USER, DB_PASSWORD, DB_HOST, DB_PORT and DB_NAME are read through getEnv with defaults softeng_app, 123456, 127.0.0.1, 3306 and softeng. An empty password gives `user@tcp(host:port)/dbname`, otherwise `user:password@tcp(host:port)/dbname`, each followed by `?parseTime=true&loc=Local&charset=utf8mb4`. |
| Config.DatabaseURLHasPassword | softeng-platform/internal/config/config.go:24-37 | The password is never empty, so the branch without a password is unreachable. The URL is always `user:password@tcp(host:port)/dbname` followed by the fixed options. |
| Config.LoadConfig | softeng-platform/internal/config/config.go:13-22 | The port is read from PORT with default "8080" and the JWT secret from JWT_SECRET with default "your-secret-key". Both are never empty. The database URL is the one `buildDatabaseURL` builds. |
| Config.LoadConfigOverrides | softeng-platform/internal/config/config.go:17-21 | A set, non-empty PORT or JWT_SECRET is used verbatim. |
| Config.DefaultSettings | softeng-platform/internal/config/config.go:13-37 | With an empty environment the settings are port "8080", JWT secret "your-secret-key", and the URL built from softeng_app, 123456, 127.0.0.1, 3306 and softeng. |

## Left out

- The SQL text, the MySQL driver and the connection pool are left out. The table is an abstract map, and a statement's failure is a parameter.
- The model counts matched rows as affected rows. The Go code only reads `RowsAffected`, and MySQL's default client flags count only rows whose values changed. The `updated_at` write makes the two agree except for two writes of identical values within one timestamp tick.
- The model compares usernames and emails by exact equality in `WHERE username = ?` and `WHERE email = ?`. The table schema and its collation are not part of this model. Under MySQL's default utf8mb4 collations the comparison ignores case (and, for PAD SPACE collations, trailing spaces). There, looking up "ALICE" finds the "alice" row, so `Login` with "ALICE" succeeds and `Register` with "Alice" reports "username already exists", which the model does not show.
- The schema's keys are not part of this model, so the table has no UNIQUE constraint. With a UNIQUE index on username or email, an INSERT of a duplicate fails, which is `Create` with `ExecFails`.
- UserRepository.Create: the source reads `time.Now()` separately for created_at and updated_at. The model writes one `now` to both, so the two timestamps are always equal, where in the source they can differ by the time between the two reads.
- AuthService.RegisterAllPreservesUniqueness: it covers registrations run one after another. `Register` checks the username and the email with two SELECTs and then INSERTs as separate statements, and the HTTP server handles requests concurrently. Two concurrent registrations of the same username can both pass the checks and both insert. Concurrency is not modelled.
- Timestamps are opaque integers supplied by the caller. `Register` returns its in-memory record, whose timestamps keep the zero value.
- When several rows match, a lookup returns the one with the least id. A single-row SELECT without ORDER BY makes no such promise, but under unique usernames and emails at most one row matches.
- `utils.HashPassword` and `utils.CheckPasswordHash` are not part of this model. They are a `Hasher` parameter with two assumptions. First, hashing is deterministic: the same password always gives the same result, which a salted hash does not. Second, a password checks against its own hash.
- Validator.ScanClasses: letters and numbers are the ASCII classes [a-zA-Z] and [0-9]. Go's `unicode.IsLetter` and `unicode.IsNumber` also accept other scripts, and those tables are not modelled.
- Validator.ValidateEmail: the regular expression is stated directly as a decomposition of the string. Go's regexp engine is not modelled.
- Strings are sequences of Unicode scalar values. Go strings holding invalid UTF-8 are not modelled. `contains` is modelled on characters, which agrees with Go's byte search on valid UTF-8.
- The tool, course and project repositories and services only return fixed sample data. `GetPending` takes their answers as parameters.
- The collection, status and submission listings in the user service return constant empty envelopes and are not modelled.
- HTTP handlers, routing, the JSON envelope, the JWT code, database bootstrap, startup and shutdown are framework plumbing and are not modelled.
- gin's binding tags (`required`, `min=6`, `email`) are enforced by a library that is not part of this model.

## Findings

| source | as written | input that shows it | evidently intended | confidence | as-written member | corrected member |
|---|---|---|---|---|---|---|
| softeng-platform/internal/service/user.go:34-41 | `UpdateProfile` checks only the lookup error. When no row has the id, `GetByID` returns `(nil, nil)`, and the merge and the call to `Update` then dereference the nil user. | Any request for an id with no row. One example is id 0, which `c.GetInt("userID")` returns when nothing in the request context sets "userID". | Report "user not found" (the message `Update` gives for a missing id) and leave the table unchanged. | high; not executed | UserService.UpdateProfileAsWritten (shown by UserService.UpdateProfileAsWrittenPanicsOnMissingUser) | UserService.UpdateProfile |
