# OfChat accounts, sessions and verification codes

This project models the account and session flow of the OfChat messenger. It covers four parts:

- The sign-in screen (`src/pages/Auth.tsx`). Registration takes two steps: the form, then an SMS code. Login is a single request.
- The session held by the root component (`src/App.tsx`). It is persisted in `localStorage` under `ofchat_user`.
- The three serverless handlers behind them:
  - the SMS verification-code service (`backend/sms/index.py`);
  - the account service (`backend/auth/index.py`);
  - the users service, for search and contacts (`backend/users/index.py`).

Each handler's logic is a pure function from the table, the request and the abstract inputs to the reply and the new table (`SendOutcome`, `VerifyOutcome`, `RegisterOutcome`, `LoginOutcome`, `AddContactOutcome`, ...). Their contracts carry the properties. A class per table applies them in place, and its `Handle` method routes a request as `handler` does.

The client components are classes whose methods update fields step by step, as the React setters do:

- `SessionStore.App` holds the current user and a map standing for `localStorage`.
- `AuthFlow.AuthScreen` holds the step, the code, the forms, the requests sent, the toasts shown and the users handed to `onSuccess`. Its `onSuccess` is the root component's `handleAuthSuccess`.

The abstract inputs are:

- The clock is an integer `now`, in seconds. The one-minute rate limit is 60 and the five-minute lifetime is 300.
- `random.randint(100000, 999999)` is a parameter `draw` within that range.
- `secrets.token_hex(5)` is a parameter `token` of five bytes.
- `hash_password` is an uninterpreted function parameter `hash`.
- A database integrity error is a parameter `conflict`, holding the error text or nothing.
- A backend reply, as the client sees it, is `Reply`: `Ok`, `Rejected(error)` or `NetworkFail`.

Tables are sequences in insertion order. In the `verification_codes` table a serial id is the row's 1-based position. The `users` table also keeps the last value drawn from its id sequence (`lastId`): an INSERT draws the next value before the unique checks run, and a rejected INSERT does not give it back, so user ids increase but may have gaps.

Modules:

- `Wrappers`: `Option`.
- `Text`: Python's `strip`, substring tests, ASCII case mapping, the digit filter.
- `Numerals`: `str(n)` and upper-case hexadecimal, with their inverses.
- `Accounts`: the `users` row and its public view.
- `SmsService`, `AuthService`, `UsersService`: the handlers.
- `SessionStore`: `src/App.tsx`.
- `AuthFlow`: `src/pages/Auth.tsx`.

## Model

| member | source | states |
|---|---|---|
| Text.Strip | backend/sms/index.py:55 | `str.strip()`: the result is no longer than the input and neither starts nor ends with whitespace (Python's `isspace` set) |
| Text.StripIsSlice | backend/sms/index.py:55 | the stripped text is a contiguous slice of the input, and everything cut off before and after it is whitespace |
| Text.BlankIffAllSpace | backend/sms/index.py:57 | `not s.strip()` holds exactly when every character is whitespace, the empty string included |
| Text.StripIdempotent | backend/auth/index.py:60-63 | stripping an already stripped field changes nothing |
| Text.Upper | backend/users/index.py:66 | `.upper()` on ASCII: the length is kept and each character is mapped on its own, `a`-`z` to `A`-`Z` and every other character to itself |
| Text.OnlyDigits | src/pages/Auth.tsx:398 | `replace(/\D/g, '')`: the result holds only digits, exactly the digits of the input, and leaves an all-digit string as it is |
| Text.OnlyDigitsAppend | src/pages/Auth.tsx:398 | filtering distributes over concatenation, so the digits keep their order |
| Text.Take | src/pages/Auth.tsx:396 | `maxLength`: a prefix of length `min(|s|, n)` |
| Numerals.DecimalString | backend/sms/index.py:50 | `str(n)`: a non-empty digit string with no leading zero for n at least 10 |
| Numerals.DecimalRoundTrip | backend/sms/index.py:50 | reading back `str(n)` gives n |
| Numerals.DecimalLength | backend/sms/index.py:50 | a number with k digits prints as k characters, 0 counting as one digit |
| Numerals.HexUpper | backend/auth/index.py:52 | `token_hex().upper()`: two upper-case hexadecimal characters per byte |
| Numerals.HexRoundTrip | backend/auth/index.py:52 | decoding the hexadecimal text gives back the bytes |
| Accounts.PublicView | backend/auth/index.py:101-107 | the `user` object of a reply carries the row's id, public id, username, email and phone |
| Accounts.RowWithId | backend/auth/index.py:226-229 | `WHERE id = %s`: no row when no id matches, otherwise a row of the table with that id |
| SmsService.Dispatch | backend/sms/index.py:8-47 | OPTIONS first, then the missing-database reply, then `send` and `verify` for POST only; each route exactly under its condition |
| SmsService.GenerateCode | backend/sms/index.py:49-50 | the code has six digits, does not start with 0, and reads back as the drawn number |
| SmsService.SendOutcome | backend/sms/index.py:52-107 | 400 exactly for a blank phone; 429 exactly when a code for the phone is younger than a minute; both leave the table as it was; otherwise 200, one record appended (the stripped phone, the code, created now, expiring five minutes later, unverified, no attempts), with that code echoed as `dev_code` and the new id |
| SmsService.NewestPending | backend/sms/index.py:139-144 | `verified = false ORDER BY created_at DESC LIMIT 1`: none exactly when the phone has no unverified record; otherwise an unverified record of the phone with the greatest creation time |
| SmsService.CheckStatus | backend/sms/index.py:156-190 | the checks on the selected record in the handler's order: 403 exactly at 3 or more attempts, 410 exactly when not locked and expired, 200 exactly when neither and the code matches, 401 otherwise |
| SmsService.CheckRecord | backend/sms/index.py:156-209 | 403 and 410 leave the table as it was; 401 adds one attempt to the selected record; 200 adds one attempt and marks it verified; success is reported exactly with status 200 |
| SmsService.VerifyOutcome | backend/sms/index.py:122-209 | 400 for a blank phone or code, 404 with no pending record, then 403 at 3 attempts and 410 after expiry, all without change; otherwise only the selected record changes: one more attempt, and `verified` set exactly when the code matches (200), else 401 |
| SmsService.SuccessConsumesOneCode | backend/sms/index.py:176-199 | a 200 verifies exactly one more record; every other outcome verifies none |
| SmsService.VerifiedCodeIsSpent | backend/sms/index.py:192-195 | in the state right after a successful check, that record is not selected for any phone |
| SmsService.SendKeepsVerified | backend/sms/index.py:87-90 | a send keeps every record and clears no `verified` flag |
| SmsService.VerifyKeepsVerified | backend/sms/index.py:176-195 | a check keeps every record and clears no `verified` flag |
| SmsService.Step | backend/sms/index.py:52-209 | serving one send or check keeps every record and every `verified` flag |
| SmsService.ServeKeepsVerified | backend/sms/index.py:52-209 | after any sequence of sends and checks, every record verified before is still verified |
| SmsService.SpentCodeStaysSpent | backend/sms/index.py:139-195 | after a successful check of a record, whatever sends and checks follow, no check for any phone selects that record again |
| SmsService.VerifyKeepsWellFormed | backend/sms/index.py:176-195 | a check changes only the attempt counter and the verified flag, so every record keeps its six-digit code, its five-minute lifetime and at most 3 attempts |
| SmsService.VerifyKeepsAttemptsBounded | backend/sms/index.py:156-180 | the attempt counter never exceeds 3 |
| SmsService.SendKeepsAttemptsBounded | backend/sms/index.py:84-91 | a send keeps every attempt counter within 3 |
| SmsService.IssuedCodeIsAccepted | backend/sms/index.py:68-107 | round trip: a code just sent is accepted (200) when submitted for the same phone within its lifetime |
| SmsService.CodeTable.SendVerificationCode | backend/sms/index.py:52-107 | applies `SendOutcome` to the table in place and keeps it well formed |
| SmsService.CodeTable.VerifyCode | backend/sms/index.py:122-209 | applies `VerifyOutcome` to the table in place and keeps it well formed |
| SmsService.CodeTable.Handle | backend/sms/index.py:8-47 | routes the request; only `send` and `verify` change the table |
| AuthService.Dispatch | backend/auth/index.py:8-48 | OPTIONS, missing database, POST `register`, POST `login`, GET `profile`, else the banner; each exactly under its condition |
| AuthService.GenerateUniqueId | backend/auth/index.py:51-52 | ten upper-case hexadecimal characters that decode to the drawn token |
| AuthService.NullIfEmpty | backend/auth/index.py:89 | a blank email or phone is stored as NULL, any other value as it is |
| AuthService.ConflictMessage | backend/auth/index.py:113-127 | the message names the first of username, email, phone found in the error text, else "Registration failed" |
| AuthService.RegisterOutcome | backend/auth/index.py:57-134 | 400 exactly when username or password is blank, or email and phone both are, with the message for each case; 409 with the mapped message exactly on an integrity error; neither inserts; otherwise 201 and one row appended: the stripped username, email and phone with a blank email or phone stored as NULL, `hash(stripped password)`, the generated public id, the id after `lastId`, no avatar, bio or last-seen time, offline; the reply carries that row's public view |
| AuthService.LastIdAfter | backend/auth/index.py:84-91 | the id sequence advances by one exactly when the request passes the local checks and reaches the INSERT, whether or not the INSERT succeeds |
| AuthService.ConflictSkipsAnId | backend/auth/index.py:84-91 | after a 409, the next successful registration gets the id two past the one before the failed request: the failed INSERT's id is skipped |
| AuthService.FirstMatch | backend/auth/index.py:165-170 | `fetchone()`: none exactly when no row matches the identifier and hash; otherwise the first matching row |
| AuthService.LoginOutcome | backend/auth/index.py:146-199 | 400 for a blank identifier or password; 200 exactly when some row has that username, email or phone and the password's hash; only that row changes (online, last seen now); otherwise 401 and no change |
| AuthService.RegisterKeepsWellFormed | backend/auth/index.py:84-91 | a registration keeps the serial ids strictly increasing in table order, each between 1 and the last drawn value, and every public id ten characters long |
| AuthService.LoginKeepsWellFormed | backend/auth/index.py:182-186 | a login keeps every row's serial id and public id |
| AuthService.RegisteredAccountCanLogIn | backend/auth/index.py:84-89 | round trip: after a registration, logging in with its username, email or phone and its password succeeds |
| AuthService.LoginIsRepeatable | backend/auth/index.py:182-186 | a login changes only presence columns, so the same login gives the same status again |
| AuthService.ProfileOutcome | backend/auth/index.py:211-249 | 400 without an id, 404 exactly when no row has it, else 200 with the profile of the row with that id: its id, public id, username, email, phone, avatar, bio, presence and last-seen time |
| AuthService.AccountTable.RegisterUser | backend/auth/index.py:57-134 | applies `RegisterOutcome` in place and keeps the table well formed |
| AuthService.AccountTable.LoginUser | backend/auth/index.py:146-199 | applies `LoginOutcome` in place and keeps the table well formed |
| AuthService.AccountTable.Handle | backend/auth/index.py:8-48 | routes the request; only `register` and `login` change the table |
| UsersService.Dispatch | backend/users/index.py:6-47 | OPTIONS, missing database, GET `search`, POST `add_contact`, GET `contacts`, else the banner |
| UsersService.Classify | backend/users/index.py:52-81 | blank query: none; `#`: exact public id, upper-cased rest; `@`: username fragment; otherwise the whole query |
| UsersService.Matching | backend/users/index.py:67-81 | the WHERE clause: every returned row matches, and every matching row is returned |
| UsersService.MatchingCounts | backend/users/index.py:67-81 | each matching row is returned as many times as it occurs in the table (once, for distinct rows), and no other row at all |
| UsersService.MatchingAppend | backend/users/index.py:67-81 | the matches of a table are the matches of its first part followed by those of the rest, so table order is kept |
| UsersService.Select | backend/users/index.py:65-83 | a `#` search returns `Matching` whole; a name search returns the first `min(20, matches)` rows of `Matching`; so only matching rows, and every match when there are at most 20 |
| UsersService.Cards | backend/users/index.py:68 | one card per row, carrying the selected columns |
| UsersService.SearchOutcome | backend/users/index.py:49-97 | 400 exactly for a blank query; otherwise 200 with the selected rows and `count` equal to their number |
| UsersService.UniqueIdSearchIsExact | backend/users/index.py:65-70 | `#rest` finds a user exactly when its public id equals `rest` upper-cased |
| UsersService.AddContactOutcome | backend/users/index.py:109-164 | 400 when an id is missing or 0, or both are equal; 200 "Contact already exists" when the pair is present; otherwise 201 and the pair appended; the pair is present afterwards and pairs stay unique |
| UsersService.AddContactIdempotent | backend/users/index.py:134-164 | adding a contact twice leaves the table as adding it once, and the second reply is 200 |
| UsersService.LiveContacts | backend/users/index.py:192-197 | the inner join's left side: a contact row is kept exactly when it is the user's and its contact account exists |
| UsersService.LiveContactsCounts | backend/users/index.py:192-197 | each kept contact row appears as many times as in the table (once, for distinct rows), and no other row at all |
| UsersService.LiveContactsAppend | backend/users/index.py:192-197 | the kept rows of a table are those of its first part followed by those of the rest, so table order is kept |
| UsersService.Joined | backend/users/index.py:192-197 | every entry comes from a contact row of the user, and every such row with an existing account has an entry |
| UsersService.JoinedFollowsContacts | backend/users/index.py:192-197 | one entry per row of `LiveContacts`, position by position: the entry carries the columns of the account with the contact's id and the row's `added_at` |
| UsersService.InsertByAdded | backend/users/index.py:198 | inserting into a newest-first list keeps it ordered and adds one element |
| UsersService.SortNewestFirst | backend/users/index.py:198 | `ORDER BY added_at DESC`: ordered newest first and a permutation of the input |
| UsersService.ContactsOutcome | backend/users/index.py:176-217 | 400 without a user id; otherwise the user's joined contacts, newest first, with `count` equal to their number |
| UsersService.ContactsBelongToUser | backend/users/index.py:194-197 | every listed contact comes from a contact row of the requested user |
| UsersService.ContactBook.AddContact | backend/users/index.py:109-164 | applies `AddContactOutcome` in place and keeps pairs unique |
| UsersService.ContactBook.Handle | backend/users/index.py:6-47 | routes the request; only `add_contact` changes the table |
| SessionStore.Saved | src/App.tsx:25 | the key holds the user afterwards and no other key changes |
| SessionStore.Cleared | src/App.tsx:30 | the key is absent afterwards and no other key changes |
| SessionStore.Restored | src/App.tsx:16-21 | a user is restored exactly when the key is present, and it is the stored one |
| SessionStore.ViewFor | src/App.tsx:43-47 | the messenger is shown exactly when there is a user, and for that user |
| SessionStore.SavedSessionIsRestored | src/App.tsx:17-25 | round trip: a user saved on sign-in is restored at the next start and shown the messenger |
| SessionStore.ClearedSessionStaysCleared | src/App.tsx:28-31 | after a logout the next start shows the sign-in screen, and a second logout changes nothing |
| SessionStore.App.constructor | src/App.tsx:14 | the first render has no user |
| SessionStore.App.Mount | src/App.tsx:16-21 | adopts the stored user if there is one, else keeps `user`; the store is untouched |
| SessionStore.App.HandleAuthSuccess | src/App.tsx:23-26 | `user` becomes the user and the store saves it under the key |
| SessionStore.App.HandleLogout | src/App.tsx:28-31 | `user` becomes null and the key is removed |
| SessionStore.App.CurrentView | src/App.tsx:43-47 | the messenger exactly when there is a user |
| SessionStore.SignInThenRestart | src/App.tsx:16-26 | sign in, then start again over the same store: signed in as the same user |
| SessionStore.LogOutThenRestart | src/App.tsx:16-31 | log out, then start again over the same store: the sign-in screen |
| AuthFlow.OrUndefined | src/pages/Auth.tsx:130-131 | `s \|\| undefined`: the field is left out exactly when empty |
| AuthFlow.RegisterBodyOf | src/pages/Auth.tsx:128-133 | the account request carries username and password, and leaves out an empty email or phone |
| AuthFlow.Reason | src/pages/Auth.tsx:72 | `data.error \|\| fallback`: the server's error when non-empty, else the fallback |
| AuthFlow.FailureToast | src/pages/Auth.tsx:114-118 | a failed request shows a destructive toast: the network message on a network failure, else the reason under the given title |
| AuthFlow.CodeInput | src/pages/Auth.tsx:396-398 | the code field holds at most 6 digits, all taken from the typed text, and keeps a valid code as typed |
| AuthFlow.TypingAppendsDigit | src/pages/Auth.tsx:396-398 | typing one character into a field holding fewer than 6 keeps every digit already there, in order, and adds the character exactly when it is a digit |
| AuthFlow.CodeInputIdempotent | src/pages/Auth.tsx:398 | filtering the field's own content changes nothing |
| AuthFlow.IssuedCodeFitsField | src/pages/Auth.tsx:396-420 | a code issued by the sms service passes the field unchanged and has the length that enables confirm |
| AuthFlow.AppendKeepsOrder | src/pages/Auth.tsx:113-123 | one more request keeps the order invariant: an account request only right after an accepted check |
| AuthFlow.AuthScreen.constructor | src/pages/Auth.tsx:18-35 | the form step, empty fields, nothing sent |
| AuthFlow.AuthScreen.EditRegisterData | src/pages/Auth.tsx:302 | a form edit changes only the registration data |
| AuthFlow.AuthScreen.EditLoginData | src/pages/Auth.tsx:256 | a login edit changes only the login data |
| AuthFlow.AuthScreen.OnSuccess | src/pages/Auth.tsx:143 | the user is recorded once and handed to the session, which saves it |
| AuthFlow.AuthScreen.SendVerificationCode | src/pages/Auth.tsx:37-85 | an empty phone: error toast and no request; otherwise one request; the step becomes `verify` and `sentCode` the dev code only on success, else both stay; loading ends false |
| AuthFlow.AuthScreen.HandleRegister | src/pages/Auth.tsx:162-184 | a password mismatch is reported first, then an empty phone, each without a request; otherwise a code is requested and the step is `verify` exactly on success |
| AuthFlow.AuthScreen.Resend | src/pages/Auth.tsx:436-443 | resending sends one request and stays on the code step whatever the reply |
| AuthFlow.AuthScreen.Back | src/pages/Auth.tsx:407-410 | back returns to the form with the code cleared |
| AuthFlow.AuthScreen.EnterCode | src/pages/Auth.tsx:396-398 | the field becomes the filtered input |
| AuthFlow.AuthScreen.ConfirmEnabled | src/pages/Auth.tsx:420 | confirm is enabled exactly when the code has 6 characters (nothing is loading between handlers) |
| AuthFlow.AuthScreen.VerifyAndRegister | src/pages/Auth.tsx:87-160 | an empty code sends nothing; the account request is sent only after the check is accepted; `onSuccess` runs once exactly when both succeed; each failure shows its toast; loading ends false |
| AuthFlow.AuthScreen.CreateVerifiedAccount | src/pages/Auth.tsx:123-150 | after an accepted check: one account request; on success a welcome toast and one `onSuccess`, otherwise the failure toast and no session change |
| AuthFlow.AuthScreen.HandleLogin | src/pages/Auth.tsx:186-223 | always one login request with the form as typed; `onSuccess` runs once exactly on success; otherwise the failure toast and no session change; loading ends false |

## Left out

- HTTP transport is not modelled: CORS headers, JSON encoding and decoding, `isBase64Encoded`. A reply is a status and a body datatype.
- The 500 replies of the `except Exception` branches are not modelled. Neither is the `conn`-may-be-unbound failure inside them: connection errors are not part of the model.
- Corrupt request bodies are not modelled. A missing JSON field is `None` and is read as `""`, as `body.get(key, '')` does.
- Query-string parameters are taken as already converted to integers, for `user_id` in `get_contacts` and `get_profile`. An absent or empty parameter is `None`.
- UsersService.Select: ILIKE is modelled as a substring test under ASCII case folding. `%` and `_` typed in a query act as wildcards in PostgreSQL, and `\` as ILIKE's default escape character; the model treats all three as plain characters. Non-ASCII case folding is not modelled.
- UsersService.Select: the name searches have no ORDER BY. The model takes the first 20 matches in table order, while the database may return any 20.
- UsersService.SortNewestFirst: the order among contacts added at the same instant is whatever the sort produces. The contract promises only what `ORDER BY added_at DESC` promises.
- SmsService.NewestPending: among records created at the same instant, the model takes the later-inserted one. PostgreSQL leaves that tie unordered.
- Text.Upper: only ASCII letters are mapped. Python's `str.upper()` also maps other letters (`é` to `É`) and can lengthen a string (`ß` to `SS`); the model leaves every non-ASCII character as it is and keeps the length.
- AuthService.FirstMatch: `fetchone()` without ORDER BY is modelled as the first matching row in table order.
- SQL `NOW()` and `CURRENT_TIMESTAMP` are the same clock as Python's `datetime.now()`, the integer `now`.
- The table schemas are not part of this model: unique constraints, column defaults, `created_at`. A unique violation is the `conflict` parameter, and `avatar_url`, `bio` and `is_online` start empty or false.
- AuthService.LoginOutcome: the login reply also carries `avatar_url` and `bio`. The modelled reply and the stored session keep only id, public id, username, email and phone.
- `hash_password` (SHA-256), `secrets.token_hex` and `random.randint` are parameters, not computations.
- The client's session stores the user object directly. `JSON.stringify` and `JSON.parse` are not modelled, and neither is a corrupt stored value, which the code does not handle.
- AuthFlow.AuthScreen.HandleLogin: the handler makes no local check of the login fields. Empty fields are stopped only by the inputs' HTML `required` attribute, which the model does not include.
- The `required` attributes of the registration inputs are not modelled either. `handleRegister` and `sendVerificationCode` check the phone themselves, and the model includes those checks.
- Toasts are recorded as title, description and variant. Their rendering, the React render cycle, routing and the component library are not modelled.
- Each server request is modelled as one atomic step over the tables; concurrent requests and their interleavings are not captured.
- SmsService.SendOutcome: its 429-exactly-when clause holds for sends handled one at a time. The rate-limit COUNT and the INSERT (backend/sms/index.py:68-89) are separate statements, so two concurrent sends for one phone can both pass the limit.
- SmsService.WellFormed: the bound of 3 attempts it keeps holds only for checks handled one at a time. The record is read (backend/sms/index.py:140) and its counter tested (backend/sms/index.py:156) before the counter is written (backend/sms/index.py:177), so two concurrent wrong guesses at 2 attempts both pass the test and leave 4.
- SmsService.VerifyKeepsAttemptsBounded: the same read-then-write race; the bound is proved for sequential checks only.
- Each asynchronous client handler runs as one step. Overlapping requests and the button-disabling races around `isLoading` are not modelled.
- `src/pages/Index.tsx` is not part of this model: it is presentation and mock data.
