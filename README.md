# User accounts behind the `/auth` endpoints, in Dafny

This project models the user-account state machine of a FastAPI contacts
service. The service can register a user, log in, confirm an email address
with a token, resend the confirmation email and replace the user's avatar.
The model follows the code's four layers:

- **Schema** (`Models.dfy`). The `users` and `contacts` rows are datatypes. The
  column widths, the unique columns and the contacts' foreign key become the
  predicates `UsersValid` and `ContactsValid`. The keyed lookups are
  `FindIndex` and `Lookup`. The repository's two in-place updates are
  described by `MarkVerified` and `SetAvatar`.
- **Repository** (`Repository.dfy`). `UserRepository` is a class holding the
  table as a `seq<UserRec>` and the next id. Its lookups are functions that
  read the table. `CreateUser`, `ConfirmedEmail` and `UpdateAvatarUrl` are
  methods that change it. Each call is one atomic step. A commit that would
  break a column width or a unique constraint is refused, and the table stays
  as it was.
- **Service** (`Services.dfy`). `UserService` holds the repository. Its
  lookups are functions that return the user or a 404. Creation, avatar
  update and verification are methods.
- **Handlers** (`Auth.dfy`). Each handler returns its response body or the
  exception it raises as a `Result`. Login is a function. The others are
  methods, because they write to the table, the background-task queue or the
  image host.

The collaborators whose code is not part of this model are passed in:

- the password hasher and verifier, as the functions `hash` and `verify`;
- the access-token issuer, as `issue`;
- the confirmation-token decoder, as `emailFromToken`, which returns an
  `Option`;
- the image host, as `UploadFileService`, which holds an uninterpreted URL
  function and a log of its calls;
- the mail queue, as `BackgroundTasks`, which holds the queued
  `send_email` jobs.

`Findings.dfy` holds verified scenarios on small stores. They show the six
places where the code as written and its evident intent part ways (see
"## Findings"). The last two follow the intended register, confirm and login
flow from start to end.

The handlers and the service they call disagree about absence, and the model
keeps the code as written in each layer:

- The handlers test the service's lookups for None (`if existing_user_by_email`,
  `if not db_user`, `if user is None`, `if user`). But the service lookups
  never return None: a miss raises the 404 "User not found". So an unknown
  email gets that 404 from register, login, confirmation and resend, and the
  handlers' own 401, 400 and generic-message branches for a missing user are
  never reached.
- The repository's `update_avatar_url` returns None for an unknown email
  rather than raising.
- Registration as written never creates a user.

## Model

| member | source | states |
|---|---|---|
| Models.UserFits | src/database/models.py:28-33 | A users row fits its columns: username at most 50 characters, email at most 100, hashed_password at most 255, and avatar_url absent or at most 255. |
| Models.UsersValid | src/database/models.py:27-33 | The users table's constraints: every row fits, and no two rows share an id, a username or an email. |
| Models.ContactFits | src/database/models.py:11-18 | A contacts row fits its columns: name and surname at most 50 characters, email at most 100, phone at most 20, and info absent or at most 500. |
| Models.ContactsValid | src/database/models.py:7-20 | The contacts table's constraints: every row fits, no two rows share an id, an email or a phone, and every user_id names an existing user. |
| Models.CanCreate | src/database/models.py:27-33 | A new user with these values would fit the columns and clash with no existing username or email. |
| Repository.UserRepository.Valid | src/database/models.py:27-33 | The repository's table meets the users constraints, and every id is below the next id the sequence hands out. |
| Models.FindIndex | src/repository/users.py:14-15 | The index found is one the key selects and no earlier row matches. None means no row matches. |
| Models.OnlyMatch | src/repository/users.py:16 | In a table with unique id, username and email, a key selects at most one row. So any matching row is the one found. |
| Models.Lookup | src/repository/users.py:10-32 | `scalar_one_or_none` on a valid table: the result is in the table and matches the key. Every matching row equals the result, so None means there is no match. |
| Models.AppendValidIff | src/database/models.py:27-33 | Adding a row with a fresh id keeps the users table valid if and only if the row fits the 50/100/255/255 column widths and its username and email are both unused. |
| Models.AppendedRowIsFound | src/repository/users.py:45-48 | After an insert, lookups by the new row's id, username and email each return that row. |
| Models.MarkVerified | src/repository/users.py:50-57 | Only the row with this email can change, and only its is_verified, to true. A known email ends verified. An unknown email leaves the table as it is. |
| Models.SetAvatar | src/repository/users.py:59-68 | Only the row with this email can change, and only its avatar_url, to the URL. An unknown email leaves the table as it is. |
| Models.MarkVerifiedAt | src/repository/users.py:54-56 | In a valid table, the row whose email matches gets is_verified set to true and keeps every other field. Every other row is unchanged. |
| Models.SetAvatarAt | src/repository/users.py:63-65 | In a valid table, the row whose email matches gets avatar_url set to the URL and keeps every other field. Every other row is unchanged. |
| Models.MarkVerifiedTouchesOneRow | src/repository/users.py:54-56 | Confirmation changes at most one row. |
| Models.SetAvatarTouchesOneRow | src/repository/users.py:63-65 | An avatar update changes at most one row. |
| Models.MarkVerifiedIdempotent | src/repository/users.py:50-57 | Confirming twice gives the same table as confirming once. |
| Models.MarkVerifiedOfVerified | src/repository/users.py:55-56 | Confirming a user who is already verified leaves the table unchanged. |
| Models.MarkVerifiedValid | src/database/models.py:27-33 | Confirmation keeps the users table valid. |
| Models.SetAvatarValidIff | src/database/models.py:33 | Setting the avatar of an existing user keeps the table valid if and only if the URL is at most 255 characters. |
| Models.ContactsSurvive | src/database/models.py:20 | A change to the users table that keeps every id keeps each contact's user_id pointing at an existing user. |
| Models.MutationsKeepIds | src/repository/users.py:34-68 | Insert, confirmation and avatar update all keep every existing row's id. |
| Models.NeverReverts | src/repository/users.py:34-68 | Insert, confirmation and avatar update never turn a verified user back into an unverified one. |
| Repository.UserRepository.GetUserById | src/repository/users.py:10-16 | Returns the unique user with this id, or None if there is none. |
| Repository.UserRepository.GetUserByUsername | src/repository/users.py:18-24 | Returns the unique user with this username, or None if there is none. |
| Repository.UserRepository.GetUserByEmail | src/repository/users.py:26-32 | Returns the unique user with this email, or None if there is none. |
| Repository.UserRepository.CreateUser | src/repository/users.py:34-48 | A dictionary argument fails with AttributeError on `username`. Otherwise the insert succeeds if and only if the row fits and clashes with no user. The new row has a fresh id, the given username and email, the password stored verbatim, is_verified false and the given avatar. It is appended and all earlier rows are unchanged. A refused insert leaves the table unchanged. |
| Repository.UserRepository.ConfirmedEmail | src/repository/users.py:50-57 | The new table is `MarkVerified` of the old one, and the table stays valid. |
| Repository.UserRepository.UpdateAvatarUrl | src/repository/users.py:59-68 | An unknown email returns None and changes nothing. A URL over 255 characters is refused and changes nothing. Otherwise it returns the user with the new avatar_url, and the table becomes `SetAvatar` of the old one. |
| External.BackgroundTasks.AddSendEmail | src/api/auth.py:45-47 | Appends exactly one `send_email(email, username, base_url)` job. |
| External.UploadFileService.Upload | src/services/users.py:82 | Returns the host's URL for the payload and public id, and logs exactly that one call. |
| Services.Digits | src/services/users.py:82 | The decimal digits of a natural number: non-empty, all digits, and with a leading zero only for 0 itself. |
| Services.DigitsRoundTrip | src/services/users.py:82 | Reading the digits of n back as a number gives n. |
| Services.Decimal | src/services/users.py:82 | Python's `str` of an int: a minus sign exactly for a negative number, and for a non-negative one a string of digits that reads back as the number. |
| Services.DecimalInjective | src/services/users.py:82 | Two ints with the same decimal form are equal. |
| Services.AvatarPublicId | src/services/users.py:82 | `f"user_{user_id}"`: the prefix `user_`, followed, for a non-negative id, by digits that read back as the id. |
| Services.AvatarPublicIdInjective | src/services/users.py:82 | Different ids give different public ids, so one user's avatar upload never lands under another user's id. |
| Services.UserService.GetUserById | src/services/users.py:34-44 | Never returns absence. A miss is the 404 "User not found". A hit is the repository's unique record with that id. |
| Services.UserService.GetUserByUsername | src/services/users.py:46-56 | Never returns absence. A miss is the 404. A hit is the unique record with that username. |
| Services.UserService.GetUserByEmail | src/services/users.py:58-68 | Never returns absence. A miss is the 404. A hit is the unique record with that email. |
| Services.UserService.CreateUser | src/services/users.py:14-32 | A taken email gives 409, and this wins when the username is taken too. Otherwise a taken username gives 409. Otherwise the result is AttributeError and the table is unchanged: as written, no user is ever created. |
| Services.UserService.CreateUserIntended | src/services/users.py:14-32 | The same two 409 checks in the same order. Then exactly one unverified user without avatar is appended, if and only if it fits the columns. A row that passes both checks but does not fit is refused with IntegrityError, and the table is unchanged. |
| Services.UserService.UpdateAvatar | src/services/users.py:70-91 | Uploads once as `user_<id>` before the lookup, even for a missing user. A missing id gives 404 and changes nothing. For an existing user only its avatar_url is set, to the uploader's URL, or the update is refused if the URL is too long. |
| Services.UserService.VerifyEmail | src/services/users.py:93-103 | An unknown email gives 404 and changes nothing. Otherwise the table becomes `MarkVerified` of the old one, and the user with that email is verified. |
| Auth.RegisterUser | src/api/auth.py:13-49 | As written: a taken email gives the handler's 409, and a fresh email gives the service's 404. Nothing is ever hashed, created or queued. |
| Auth.RegisterUserIntended | src/api/auth.py:13-49 | Corrects both the handler's None checks and the service's `body.dict()` call, because it creates through `CreateUserIntended`. Email 409 first, then username 409. Otherwise one user is created, with the hash of the password, unverified and without avatar, if and only if it fits the columns; a row that does not fit is refused with IntegrityError. Exactly one confirmation email is queued for it, and only once it exists. Every failure leaves the table and the queue unchanged. |
| Auth.LoginCheck | src/api/auth.py:59-76 | Given the lookup's outcome, the token is issued (for the user's email, type "bearer") if and only if a user was found, the password verifies and the user is verified. A missing user or a failed password gets the 401 with the Bearer challenge. A correct password on an unverified user gets the "not confirmed" 401. |
| Auth.LoginUser | src/api/auth.py:51-76 | Succeeds if and only if a user with the email exists, the password verifies against its hash and the user is verified. The token is issued for that email with type "bearer". An unknown email gives the service's 404. A failed password check gives the 401 with the Bearer challenge. A correct password on an unverified user gives the distinct 401. |
| Auth.LoginUserIntended | src/api/auth.py:51-76 | The same, except that an unknown email gets the same 401 as a wrong password. |
| Auth.ConfirmationUnlocksLogin | src/api/auth.py:68-76 | After the user with this email is confirmed, the right password produces the bearer token for that email. |
| Auth.UpdateAvatar | src/api/auth.py:78-91 | As written, the handler's call to `upload_file` is not awaited, so it uploads nothing and passes a pending call to the service in place of the file. There is exactly one upload: that pending call, under `user_<id>`. The URL the host returns for it is stored under the service's rules: 404 for a missing user, refusal of a URL over 255 characters. |
| Auth.UpdateAvatarIntended | src/api/auth.py:78-91 | One upload, of the file, under `user_<id>`, and that URL is stored. |
| Auth.ConfirmedEmail | src/api/auth.py:93-112 | A refused token fails and changes nothing. An unknown email gives the service's 404. A verified user gets "already confirmed" and the table is unchanged. An unverified user becomes verified and gets the confirmed message. |
| Auth.ConfirmedEmailIntended | src/api/auth.py:93-112 | The same, except that an unknown email gets the handler's 400 "Помилка верифікації". |
| Auth.RequestEmail | src/api/auth.py:114-132 | Never writes the table. An unknown email gives the service's 404. A verified user gets "already confirmed" and nothing is queued. An unverified user gets the generic message and exactly one email, to that user's address and username. |
| Auth.RequestEmailIntended | src/api/auth.py:114-132 | The same, except that an unknown email gets the generic message and nothing is queued. |
| Findings.FreshRegistration | src/api/auth.py:23 | On an empty store, registering alice ends in 404 as written. As intended it creates her unverified, with the hashed password, and queues one email. |
| Findings.ServiceCreateWithDict | src/services/users.py:32 | On an empty store, the service's create fails with AttributeError as written and creates alice as intended. |
| Findings.UnknownEmailLogin | src/api/auth.py:57-65 | An unknown email gives 404 as written and 401 as intended. |
| Findings.UnknownEmailConfirmation | src/api/auth.py:100-106 | A token for an unknown email gives 404 as written and 400 as intended. |
| Findings.UnknownEmailResend | src/api/auth.py:122-132 | An unknown email gives 404 as written and the generic message as intended. No email is queued either way. |
| Findings.AvatarUploads | src/api/auth.py:89-91 | For a registered user, the one upload is of the pending call and never of the file, as written. As intended the file itself is uploaded once, under the same public id. |
| Findings.BeforeConfirmation | src/api/auth.py:60-72 | Before confirmation, the right password gets the "not confirmed" 401 and a wrong one the credentials 401. Registering the same email again gets 409. |
| Findings.ConfirmationThenLogin | src/api/auth.py:93-112 | Confirming a registered user and then logging in yields the bearer token for her email. |

## Left out

- Sessions, `execute`/`select`, `commit`/`refresh` and async/await are not modelled. Each repository call is one atomic step on the in-memory table.
- `created_at` and `updated_at` are not modelled. Ids come from a counter. The real id sequence may skip values, and the model only relies on ids being unused.
- Routing, `Depends` and `response_model` filtering are not modelled, so the password column still appears in a returned user. HTTP status codes appear only as tags in `Failure`.
- The request bodies are taken as given: the pydantic schemas that validate them are not part of this model.
- `get_current_user` is not part of this model. The avatar handler takes the current user as a parameter.
- Hashing and password checks are parameters with no assumed properties. The salt is not modelled, so `hash` is a function of the password alone.
- Token issue and decoding are parameters. Expiry, signatures and token purpose are not modelled. A token the decoder refuses ends in `TokenRejected`. The status code of that failure is set in a file that is not part of this model.
- `send_email` is not modelled; only the queued job is recorded. Mail delivery and its failures are out of scope.
- The image host is an uninterpreted URL function; Cloudinary and `settings` are not modelled. The model takes `upload_file` to be a coroutine function, as the service's `await` at src/services/users.py:82 requires. Under that reading the handler's unawaited call at src/api/auth.py:89 only builds a pending call, which the service then hands to the uploader as its file. What the uploader does with that object is up to its own code, which is not part of this model, so the URL it yields is left uninterpreted.
- Auth.UpdateAvatar: the other reading of `upload_file`, a plain function, is not modelled. Under it the handler's call would upload the file and return a URL string. The service would then call `upload_file` a second time, under `user_<id>`, with that string as its file. If the uploader fails on a string, the request fails there. If it returns a URL, the service's `await` on that string raises a TypeError. Either way nothing is stored.
- Concurrent requests, and the registration race that only the unique constraint resolves, are not modelled.
- Contact operations are not modelled. Only the contacts table's invariant is, together with the fact that no user mutation breaks its foreign key.
- `users.is_verified` is a nullable column, but the model uses `bool`. Rows are only created by `create_user`, which always sets it to false.
- Repository.UserRepository.CreateUser: merges the database's integrity and data-too-long errors into one `IntegrityError`. It also assumes the database enforces the declared column widths, which depends on the database engine.
- Repository.UserRepository.UpdateAvatarUrl: makes the same merge and the same assumption for the 255-character avatar_url column.

## Findings

| source | as written | input that shows it | evidently intended | confidence | as-written member | corrected member |
|---|---|---|---|---|---|---|
| src/api/auth.py:23-28 | The handler tests `if existing_user_by_email`, but the service lookup raises 404 on a miss, so every new email ends in 404. | register `alice` / `alice@x.com` / `pw1` on an empty store | a fresh email goes on to the username check, hashing, creation and the confirmation email | not executed | Auth.RegisterUser | Auth.RegisterUserIntended |
| src/services/users.py:32 | `create_user(body.dict())` passes a dict, and the repository reads `user.username`, which raises AttributeError | create `alice` through the service on an empty store | the body itself is passed and the user is stored | not executed | Services.UserService.CreateUser | Services.UserService.CreateUserIntended |
| src/api/auth.py:57-65 | `if not db_user` never sees None, so an unknown email gets 404 | log in as `nobody@x.com` | the 401 "wrong email or password" | not executed | Auth.LoginUser | Auth.LoginUserIntended |
| src/api/auth.py:100-106 | `if user is None` never holds, so a token for an unknown email gets 404 | confirm a token decoding to `nobody@x.com` | the handler's 400 | not executed | Auth.ConfirmedEmail | Auth.ConfirmedEmailIntended |
| src/api/auth.py:122-132 | `if user` never sees None, so an unknown email gets 404 | resend to `nobody@x.com` | the generic "check your email" message, with no email sent | not executed | Auth.RequestEmail | Auth.RequestEmailIntended |
| src/api/auth.py:89-91 | `upload_file` is awaited by the service, so it is a coroutine function. The handler calls it without `await`, so the file is never uploaded, and the service uploads the pending call in place of the file (scenario: Findings.AvatarUploads) | update the avatar of a registered user with any file | the file itself uploaded once under `user_<id>`, and its URL stored | not executed | Auth.UpdateAvatar | Auth.UpdateAvatarIntended |
