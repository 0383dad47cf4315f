# Password reset and app config of the MIUHub backend, in Dafny

The backend (`server.js`) serves static pages and two API routes that delegate to a hosted
identity and data service through an administrative client:

- `POST /api/auth/reset-password` checks that `email` and `newPassword` are present, checks
  the new password against a fixed policy (at least 8 characters, an upper-case letter, a
  lower-case letter, a digit and a special character, in that order, reporting only the first
  broken rule), then lists the service's users, picks the first whose email equals the
  request's exactly, and asks the service to set that user's password. Each step runs only if
  every earlier one succeeded; the answer is 400, 404, 500 or 200.
- `GET /api/config` reads the `(key, value)` rows of the `app_config` table and folds them into
  an object, a later row overwriting an earlier one. Every failure gives the empty object, and
  the answer always says `success: true`.

The model:

- `Wrappers.dfy`: `Option`, for absent request fields and for the result of `find`.
- `PasswordPolicy.dfy`: the validator as pure functions (`CheckPassword`, `Validate`), and an
  independent reference in which the policy is an ordered list of rules and the verdict is the
  failure of the first broken rule (`FirstBroken`, `RuleVerdict`). A lemma proves the two agree.
- `AdminClient.dfy`: the administrative client as a class. It holds whether it was created
  (`configured`), the answers the service gives during one request (`Answers`), and a log of
  every call made on it (`calls`). Its methods can only be called on a configured client.
- `PasswordReset.dfy`: the reset handler. `Reset` is a function from the request and the
  service's answers to the response and the calls made. `ResetPassword` is the handler as a
  method on a `Client`, proved to answer what `Reset` answers and to make exactly the calls
  `Reset` lists. The lemmas state the ordering and "no later step runs" properties.
- `AppConfig.dfy`: the config handler. `Fold` specifies the row fold. `BuildConfig` is the
  `forEach` loop. `FetchConfig` is the handler on a `Client`. Lemmas prove that the keys of the
  result are the rows' keys and that each key holds the value of its last row.

The special-character set follows the regex at server.js:150, colon included (thirty
characters in all).

## Model

| member | source | states |
|---|---|---|
| PasswordPolicy.Filled | server.js:129 | no contract; the JavaScript truthiness test `!x` on a body field: false for an absent field and for the empty string |
| PasswordPolicy.Contains | server.js:138-150 | no contract; holds exactly when some character of the password is in the class (A-Z, a-z, 0-9, or the thirty special characters of line 150) |
| PasswordPolicy.ContainsIsLookaheadTest | server.js:138-150 | the unanchored `(?=.*[X])` test, tried at every position with `.` not matching line terminators, succeeds exactly when the string contains a character of X |
| PasswordPolicy.CheckPassword | server.js:134-152 | never FieldsMissing; any password shorter than 8 is TooShort whatever it contains; Ok exactly when the password has length at least 8 and contains an A-Z, an a-z, a 0-9 and a special character |
| PasswordPolicy.Validate | server.js:129-152 | FieldsMissing exactly when email or newPassword is absent or empty; Ok exactly when both are present and the password is strong; with both present, the password policy's verdict |
| PasswordPolicy.ValidateReportsFirstBrokenRule | server.js:129-152 | with both fields present, the request's verdict is Ok or the failure of the first broken rule in the order length, upper, lower, digit, special |
| PasswordPolicy.FirstBroken | server.js:134-152 | the index it returns is the first rule of the list that the password breaks: every earlier rule holds, and the rule at that index, if any, does not |
| PasswordPolicy.CheckPasswordReportsFirstBrokenRule | server.js:134-152 | the early-return chain agrees with the ordered rule list: Ok when no rule is broken, else the failure of the first broken rule in the order length, upper, lower, digit, special |
| PasswordPolicy.OnlyFirstViolationReported | server.js:134-152 | a rule's failure is reported if and only if that rule is broken and every rule before it holds |
| PasswordPolicy.MissingUpperBeforeMissingDigit | server.js:138-148 | every password of at least 8 characters lacking both an upper-case letter and a digit reports MissingUpper, whatever else it contains |
| PasswordPolicy.ExampleMissingUpperAndDigit | server.js:138-148 | the 8-character password "abcdefg!" reports MissingUpper |
| PasswordPolicy.ExampleStrongPassword | server.js:134-152 | "Abcd123!" passes validation |
| PasswordPolicy.ColonIsSpecial | server.js:150 | the colon counts as a special character: "Abcd123:" passes the policy |
| PasswordPolicy.ExampleShortPassword | server.js:134-136 | "abc", which breaks four rules, reports only TooShort |
| AdminClient.Client.constructor | server.js:26-41 | a new client is configured or not as given, with the given answers and an empty call log |
| AdminClient.Client.ListUsers | server.js:166 | callable only on a configured client; returns the service's listing and appends one ListUsers call to the log |
| AdminClient.Client.UpdateUserById | server.js:180-183 | callable only on a configured client; returns whether the service accepts the update and appends that update call, with its id and password, to the log |
| AdminClient.Client.SelectConfig | server.js:79-81 | callable only on a configured client; returns the service's answer to the config query and appends one SelectConfig call to the log |
| PasswordReset.Status | server.js:129-193 | 200 only for success, 404 only for an unknown user, 400 only for a rejected request, 500 for an absent client, a failed listing or a failed update |
| PasswordReset.FirstMatch | server.js:173 | the index returned is that of the first user whose email equals the given one exactly; no earlier user matches |
| PasswordReset.Find | server.js:173 | finds nothing exactly when no user has the email; otherwise returns a user with that email at some index before which no user has it |
| PasswordReset.Reset | server.js:127-193 | a rejected request never carries Ok; no call is made exactly when the request is rejected or the client is absent; otherwise the client is configured, the first call is the listing and there are at most two calls |
| PasswordReset.ResetPassword | server.js:127-193 | the handler on a client answers what Reset answers and appends to the client's log exactly the calls Reset lists |
| PasswordReset.MissingFieldStopsEverything | server.js:129-131 | a missing or empty email or password gives 400 FieldsMissing with no call to the service |
| PasswordReset.RejectedIffInvalid | server.js:129-152 | the request is rejected exactly when validation fails, with the validator's verdict, and then no call is made |
| PasswordReset.NotConfiguredOnlyAfterValidation | server.js:154-163 | "not configured" is answered exactly when validation passed and the client is absent; an absent client is never called |
| PasswordReset.ListingFailureSkipsUpdate | server.js:166-171 | the listing-failure 500 is answered exactly when validation passed, the client exists and the listing fails; then the only call is the listing |
| PasswordReset.UnknownEmailIsNotFound | server.js:173-177 | 404 is answered exactly when validation passed, the listing succeeded and no listed user has the request's email; then no update is made |
| PasswordReset.UpdateCalledOnceWithMatchedUser | server.js:173-183 | when the handler reaches the update, it is invoked exactly once, after the listing, with the first matching user's id and the unchanged new password; otherwise it is never invoked |
| PasswordReset.SuccessIffUpdateSucceeds | server.js:180-193 | 200 exactly when the update is reached and succeeds; the update-failure 500 exactly when it is reached and fails |
| PasswordReset.ExampleUnknownEmail | server.js:173-177 | "test@example.com" against a listing that has only "Test@example.com" gives 404 after one listing call (no case folding) |
| AppConfig.Fold | server.js:89-92 | the object the rows build, assigned one after another into an empty object; it has at most one key per row (its keys and values are pinned down by FoldKeys and FoldLastWriteWins) |
| AppConfig.ConfigFor | server.js:76-108 | the empty config when the client is absent or the query fails; otherwise the fold of the rows (empty when there are none) |
| AppConfig.FoldKeys | server.js:89-92 | a key is in the config exactly when some row has it |
| AppConfig.FoldLastWriteWins | server.js:89-92 | a key maps to the value of the last row that has that key |
| AppConfig.BuildConfig | server.js:89-92 | the loop over the rows builds exactly the fold of the rows |
| AppConfig.FetchConfig | server.js:76-108 | the response always says success, with the config ConfigFor gives; the table is queried once if the client exists and never otherwise |
| AppConfig.ExampleLastRowWins | server.js:89-92 | rows ("primary_color", "#fff") then ("primary_color", "#000") give { primary_color: "#000" } |

## Left out

- Express routing, body parsing, static pages and the root route, which serves the privacy-policy page (server.js:1-14, 43-71, 201-204): HTTP plumbing with no logic.
- Reading the environment and creating the client (server.js:16-41): modelled only as the `configured` flag of `Client`.
- All console logging (server.js:20-24, 35, 37, 40, 100, 110, 118-125, 155-161, 169, 186, 196, 206-214): no effect on responses.
- The outer `catch` blocks that answer 500 on an unexpected exception (server.js:109-112, 195-198): the model has no exceptions. The throw at server.js:84 is caught by the inner catch at server.js:99, which the model renders as `QueryError`. The outcomes of the foreign calls are given as answers, so a rejected `listUsers` or `updateUserById` promise, which would reach the outer catch, is not a separate case.
- The real service behind `listUsers`, `updateUserById` and `from('app_config').select`: foreign library calls. The model takes their answers as given. In particular, it does not model that the service may return only one page of users.
- Asynchronous suspension and concurrent requests: no state is shared between requests.
- Non-string request fields, whose `.length` and regex tests behave differently: fields are absent or strings.
- JavaScript string length counts UTF-16 code units; the model counts characters (`|s|`).
- A user record without an email: the model gives every user a string email. The request email is non-empty by the time users are searched, so an empty email never matches, just as a missing one never does.
- A config query that answers with neither rows nor an error: it gives the empty config like an empty row list, and is not a separate case.
- Key coercion and special keys such as `__proto__` in the config object: keys and values are plain strings.
- The text of the error messages: each response is a distinct constructor carrying its status.
