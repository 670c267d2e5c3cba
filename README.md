# Breeze authentication service — a verified model

This project models the authentication orchestrator of the Breeze API template
(`AuthService`). It covers six flows: registration, login, password change,
password reset, email verification and profile update. It also covers three
pieces of logic inside them: the trusted-device check, the device promotion
that follows a successful one-time-code login, and the handle-collision loop.

All flows run over the same state, the fields of class `Auth.AuthService`:

- `users`: the user table, a sequence of `Account` rows kept in table order, soft-deleted rows included. `FirstOrDefault` is the first matching row.
- `cache`: the trust cache, a map from string keys to string values.
- `otpIssued`: a ghost log, one entry per one-time code issued (invalidate, generate, save, send).

The flows do not compute what the outside world decides; each method takes it as a parameter:

- whether a password check passes;
- whether a submitted code is valid;
- whether account creation, role assignment and a password reset succeed;
- the device id from the request header;
- the logged-in username;
- the random numbers the handle loop draws;
- the token that is issued.

Modules:

- `Wrappers`: `Option`.
- `Text`: the .NET string operations used by the flows (`IsNullOrWhiteSpace`, `ToLower`, `Replace(" ", "")`, decimal rendering).
- `Accounts`: the row type, the lookups, and the invariant `HandlesUnique`. The lookups are `UserExists` and `GetUserByUsername`, both soft-delete aware and case-insensitive, `FindByName`, which ignores the soft-delete flag, and `UserhandleAlreadyExist`, which compares exactly. `HandlesUnique` says no two live accounts with different usernames share a handle, and every flow preserves it.
- `Handles`: the handle candidates and the collision loop.
- `TrustCache`: the cache keys and the cache and table effects of `ValidateTrustedDevice` and `UpdateDevice`.
- `Auth`: the outcome enumeration, the requests and the service class with one method per flow.

Some points are modelled exactly as the code has them:

- Username lookups lower-case both sides. The handle check compares handle and username exactly.
- Cache keys are prefix + username + device id with no separator. `TrustCache.CrossUserKeyCollision` proves the key map is not injective. `TrustCache.CrossUserTrust` proves that an entry recorded for account `ab` on device `c` makes account `a` trusted on device `bc`. Login then skips the one-time code for `a` whatever `a`'s row says.
- On `Login`, the trust check runs before the password check, so a failed login can still back-fill the cache. The backfilled value is the device id that the stored row already names.
- `Login` reports success as `InvalidVerificationCode` together with a profile-and-token payload. The success path at `AuthService.cs:149` returns exactly that. `Auth.AuthService.Login` states it as a postcondition (`payload.Some? ==> outcome == InvalidVerificationCode`).
- `ForgotPassword` succeeds with `UserLoginSuccessfully` and ignores the result of the reset.
- A cached value grants trust only if it is not blank; a blank value is a miss (`AuthService.cs:317`).

## Model

| member | source | states |
|---|---|---|
| `Accounts.FirstWhere` | Breeze.Services/Auth/AuthService.cs:309-310 | `FirstOrDefault`: the result is the first row satisfying the filter, and None exactly when no row does |
| `Accounts.GetUserByUsername` | Breeze.Services/Auth/AuthService.cs:303-311 | a live row is found exactly when `UserExists` holds; that row's username matches case-insensitively, it is not deleted, and no earlier row is a live match |
| `Accounts.FindByName` | Breeze.Services/Auth/AuthService.cs:112-113 | the user-manager lookup ignores the soft-delete flag: it finds nothing exactly when no row, deleted or not, has the username case-insensitively. It finds a row whenever `UserExists` holds, and the row it finds is the first case-insensitive username match |
| `Accounts.UserExists` | Breeze.Services/Auth/AuthService.cs:303-305 | definition: some row that is not deleted has the username, both sides lower-cased |
| `Accounts.UserhandleAlreadyExist` | Breeze.Services/Auth/AuthService.cs:334-337 | definition: some row that is not deleted holds exactly this handle under a username that differs exactly from the given one |
| `Accounts.OwnHandleNeverCollides` | Breeze.Services/Auth/AuthService.cs:334-337 | while handles are unique, a live account's own current handle is never reported as already existing for its own username |
| `Accounts.InsertFreeHandle` | Breeze.Services/Auth/AuthService.cs:80-85 | appending a row whose handle passed the collision check keeps handles unique among live accounts |
| `Accounts.ReplaceFreeHandle` | Breeze.Services/Auth/AuthService.cs:264-272 | saving a row under the same username with a handle that passed the collision check keeps handles unique |
| `Accounts.ReplaceSameHandle` | Breeze.Services/Auth/AuthService.cs:294-297 | updating a row's device, password or email flag, with username, handle and delete flag unchanged, keeps handles unique |
| `Accounts.LookupsUnchanged` | Breeze.Services/Auth/AuthService.cs:303-311 | an update that keeps the username and delete flag changes none of `UserExists`, `GetUserByUsername`, `FindByName` |
| `Text.IsNullOrWhiteSpace` | Breeze.Services/Auth/AuthService.cs:62 | definition: every character of the string is white space in the sense of `char.IsWhiteSpace`; the empty string qualifies. The same test guards the code at lines 126, 197 and 231 and the cache value at line 317 |
| `Text.Lower` | Breeze.Services/Auth/AuthService.cs:304 | definition: `ToLower`, applied character by character. The same folding is used at lines 82, 266, 285 and 309 |
| `Text.RemoveSpaces` | Breeze.Services/Auth/AuthService.cs:82 | `Replace(" ", "")`: no space remains, every other character keeps its number of occurrences, and a string without spaces is returned unchanged |
| `Text.RemoveSpacesConcat` | Breeze.Services/Auth/AuthService.cs:82 | removing spaces works piece by piece, so the kept characters stay in their order |
| `Text.Decimal` | Breeze.Services/Auth/AuthService.cs:82 | the interpolated random number is a non-empty string of decimal digits. It denotes exactly the number, and a rendering longer than one digit has no leading zero, so 0 renders as `0` |
| `Handles.Candidate` | Breeze.Services/Auth/AuthService.cs:266 | definition: first name and last name, each with spaces removed and lower-cased, followed by the decimal random number. Line 82 builds the same candidate |
| `Handles.CandidatesDistinct` | Breeze.Services/Auth/AuthService.cs:82 | for the same names, two candidates are equal exactly when their random numbers are equal |
| `Handles.Attempts` | Breeze.Services/Auth/AuthService.cs:80-83 | definition: the handles the loop tries, in order. First the row's initial handle, then one candidate per random number drawn |
| `Handles.FirstFree` | Breeze.Services/Auth/AuthService.cs:80-83 | the loop's result is None exactly when every attempt collides. Otherwise it is an attempt that no live account with a different username holds, and every earlier attempt collides |
| `Handles.AllocateHandle` | Breeze.Services/Auth/AuthService.cs:264-267 | the while loop over the collision check returns exactly the first free attempt, or None when the random numbers run out |
| `Handles.KeepsOwnHandle` | Breeze.Services/Auth/AuthService.cs:264-267 | while handles are unique, a live account that starts the loop with its own current handle keeps it without a retry. The loop never fails on a self-collision |
| `TrustCache.CacheKey` | Breeze.Services/Auth/AuthService.cs:315 | definition: the trusted-device prefix, the username and the device id concatenated with no separator. Lines 291-292 build keys the same way |
| `TrustCache.CacheHit` | Breeze.Services/Auth/AuthService.cs:316-317 | definition: the key is present and its value is not blank |
| `TrustCache.RecordTrusts` | Breeze.Services/Auth/AuthService.cs:319-320 | definition: the live row for the username exists and names this device |
| `TrustCache.Trusted` | Breeze.Services/Auth/AuthService.cs:313-332 | definition: the answer of the trust check. It is true on a non-blank cached value; otherwise the first live row for the username must name this device |
| `TrustCache.Backfill` | Breeze.Services/Auth/AuthService.cs:317-330 | the cache after the trust check. A hit leaves it unchanged, and so does a false answer. A true answer leaves the key present. The only possible change is writing the device id under an absent key |
| `TrustCache.SameUserKeyInjective` | Breeze.Services/Auth/AuthService.cs:291-292 | for one username, two device ids give the same key if and only if they are equal |
| `TrustCache.CrossUserKeyCollision` | Breeze.Services/Auth/AuthService.cs:315 | the separator-free key is not injective: (`ab`, `c`) and (`a`, `bc`) share a key |
| `TrustCache.CrossUserTrust` | Breeze.Services/Auth/AuthService.cs:313-317 | a non-blank entry for account `ab` on device `c` makes the trust check for `a` on `bc` succeed from the cache, writing nothing |
| `TrustCache.Promote` | Breeze.Services/Auth/AuthService.cs:291-292 | after device promotion the new device's key holds the new id. The old device's key is gone when the devices differ. Every other key is untouched, and no other key is added |
| `TrustCache.PromoteUsers` | Breeze.Services/Auth/AuthService.cs:284-297 | device promotion sets the live row's `TrustedDeviceId` to the new id and `ModifiedBy` to the username, touches no other field and no other row, and changes nothing when no live row matches |
| `TrustCache.PromoteCache` | Breeze.Services/Auth/AuthService.cs:289-292 | definition: the whole cache effect of `UpdateDevice`. With a live row it is `Promote` from the row's stored device to the new one; without one the cache is unchanged |
| `TrustCache.PromotedDeviceTrusted` | Breeze.Services/Auth/AuthService.cs:282-301 | after promotion, the trust check for the same username and new device returns true and writes nothing. It is a pure cache hit exactly when the device id is not blank |
| `Auth.NewAccount` | Breeze.Services/Auth/AuthService.cs:78 | definition: the row `ToUserEntity` builds. It has the request's names and password, the header device id and the settled handle. It is unconfirmed and not deleted, with an empty modifier and no roles |
| `Auth.NewRowIsFound` | Breeze.Services/Auth/AuthService.cs:85 | the row a registration creates is the one the live-row lookup then finds for its username |
| `Auth.AuthService.IssueOtp` | Breeze.Services/Auth/AuthService.cs:64-67 | one challenge (invalidate, generate, save, send) appends exactly one entry for the username to the code log |
| `Auth.AuthService.ValidateTrustedDevice` | Breeze.Services/Auth/AuthService.cs:313-332 | a hit returns true and leaves the cache unchanged. On a blank or missing value the answer is true iff the live row names this device. A false answer leaves the cache unchanged. A true answer after a miss writes the key only if it is absent |
| `Auth.AuthService.UpdateDevice` | Breeze.Services/Auth/AuthService.cs:282-301 | the new table and cache are exactly the promotion of the old ones, or unchanged without a live row. Handles stay unique |
| `Auth.AuthService.ChangeUserPassword` | Breeze.Services/Auth/AuthService.cs:340-346 | the reset reports its success flag and changes only that row's password, and only on success |
| `Auth.AuthService.Register` | Breeze.Services/Auth/AuthService.cs:55-108 | a live username, a blank code (one challenge issued) and a wrong code each end the flow with the table unchanged. A failed creation or role assignment gives `UnableToCompleteProcess`, no payload, and the table as on entry. Only full success appends the row with the first free handle and the default role, with a payload. Details under "Register outcomes" |
| `Auth.AuthService.Login` | Breeze.Services/Auth/AuthService.cs:110-150 | an unknown user or a wrong password gives `InvalidUsernamePassword`, no payload and an unchanged table. An untrusted device needs a code: a blank one issues a challenge, a wrong one is refused, a valid one promotes the device. Every payload comes with `InvalidVerificationCode`. Details under "Login outcomes" |
| `Auth.AuthService.ChangePassword` | Breeze.Services/Auth/AuthService.cs:152-186 | a wrong current password gives `InvalidPassword` and no reset. A failed reset gives `SomethingWentWrong` with the table unchanged. After a reset, a failing re-check gives `InvalidPassword` and a passing one gives `PasswordChangedSuccessfully` with a payload |
| `Auth.AuthService.ForgotPassword` | Breeze.Services/Auth/AuthService.cs:188-221 | a missing user gives `InvalidUsernamePassword`. A blank code issues one, and a wrong code is refused. A valid code resets the password without checking the old one, ignores the reset result, and gives `UserLoginSuccessfully` with a payload. The table changes only after a valid code |
| `Auth.AuthService.VerifyEmail` | Breeze.Services/Auth/AuthService.cs:223-252 | a missing user gives `UserDoesNotExist`. An already-confirmed user gets `EmailVerifiedSuccessfully` with no code issued and no update. Otherwise the challenge runs and a valid code sets the flag. After any success, the same username finds a confirmed row, so a repeat call takes the short cut |
| `Auth.AuthService.UpdateProfile` | Breeze.Services/Auth/AuthService.cs:254-280 | a missing user gives `UserDoesNotExist`. Otherwise the mapped row gets the first free handle and the logged-in modifier and is saved, with a payload. A live account that keeps its own handle always succeeds and keeps it. Details under "UpdateProfile outcomes" |

### Register outcomes

`Auth.AuthService.Register` states:

- A live username, compared case-insensitively, gives `UserAlreadyExist`.
- A blank code issues exactly one challenge and gives `VerificationCodeSent`.
- A wrong code gives `InvalidVerificationCode`.
- None of these three paths changes the table.
- After a valid code, the row gets the first free handle.
- A failed creation or role assignment gives `UnableToCompleteProcess`. The payload is null, the table equals its state on entry, and the username still does not exist.
- Only full success appends the new row with the default role and gives `UserRegisteredSuccessfully` with a payload.
- Handles stay unique.

### Login outcomes

`Auth.AuthService.Login` states:

- An unknown user gives `InvalidUsernamePassword` and changes nothing.
- A wrong password gives `InvalidUsernamePassword` with no payload. The table is unchanged. The cache is at most back-filled for the stored device.
- A trusted device succeeds directly.
- An untrusted device with a blank code issues a challenge and leaves the table unchanged.
- An untrusted device with a wrong code gives `InvalidVerificationCode` with no payload.
- An untrusted device with a valid code promotes the device.
- Every payload comes with the outcome `InvalidVerificationCode`.

### UpdateProfile outcomes

`Auth.AuthService.UpdateProfile` states:

- A missing user gives `UserDoesNotExist`.
- Otherwise, the mapped row gets the first free handle and the logged-in modifier, and is saved. The outcome is `ProfileUpdatedSuccessfully` with a payload.
- A live account that keeps its own handle always succeeds and keeps it.
- Handles stay unique.

## Left out

- Object mapping (AutoMapper, `ToUserEntity`, `To*Dto`) is not part of this model. The handle the mapping starts a row with and the profile fields are request inputs. A new row is taken to be unconfirmed, not deleted, with no roles and an empty modifier. The profile mapping is taken to write first name, last name and handle only.
- The one-time-code service is not modelled internally. Issuing a code appends to a ghost log, and code validity is a boolean parameter.
- The sign-in and user managers are reduced to success flags. Password checks are boolean parameters and do not read the stored password. Registration stores the request password in the new row, and a successful reset overwrites it. `SignOutAsync` and reset-token generation are not modelled.
- `CreateAsync` is reduced to a success flag. Its own validation, such as duplicate usernames among deleted rows and password rules, is folded into that flag.
- `UpdateAsync` is taken to succeed; the source ignores its result.
- Token issuance is a token parameter. The claims bundle is not modelled. Roles are a field of the row.
- The random numbers are a finite sequence, not an endless draw.
- `Helper.GenerateRandomNumber` is not part of this model. Its results are taken to be non-negative (`nat`), so a rendering with a minus sign lies outside the model.
- Dates, `ModifiedDate`, `RowVersion`, `CreatedBy` and `CreatedDate` are not modelled.
- The transaction scope is modelled only as the table snapshot that every non-completing path of `Register` leaves in place.
- Asynchrony and races between concurrent requests are not modelled; each flow runs alone.
- The request filter `Breeze.API/Filter/DeviceValidator.cs` is not part of this model. It only calls `ValidateTrustedDevice`.
- `BaseEntity` is not part of this model; the core does not use it.
- `CacheKeys.TRUSTED_DEVICE` and `UserRoles.ADMIN_ROLE` are not visible. They are the constants `trustedDevicePrefix` and `adminRole`.
- `Lower` folds ASCII letters only. The user manager's own name normalisation is taken to be the same function.
- Null strings are not distinct values. A missing cache value is an absent key. A null code is taken to be blank.
- `Auth.AuthService.Login`: the payload carries the row as it stands after the flow. This stands in for the change tracking that makes the user manager's entity and the repository's entity the same object.
- `Handles.AllocateHandle`: the source loop is unbounded and may never end. The model stops when its supplied random numbers run out. Register and UpdateProfile then return `HandleCandidatesExhausted` with the table unchanged; the source has no such outcome.
