# User management: access control and account lifecycle, in Dafny

This project models the server-side core of a small user-management backend
and the client-side form checks that mirror its password policy:

- the `authenticate` middleware: it takes a token out of the `Authorization`
  header, verifies it, loads the user it names, and admits the request only
  for an account whose status is `active`. Each refusal has its own status
  code. Also the one-line `isAdmin` role check;
- the `/api/users` routes behind those gates:
  - pagination arithmetic and the projection of records for the admin list;
  - the activate/deactivate state machine with its self-deactivation guard;
  - partial profile update with the e-mail uniqueness check;
  - password change: validate, then verify the old password, then replace it;
- the profile page's `validateProfile` and `validatePassword` and the submit
  guard they drive.

Files and modules:

| file | module | what it holds |
|---|---|---|
| `wrappers.dfy` | `Wrappers` | `Option` and `Result` |
| `strings.dfy` | `Strings` | JavaScript's `split(' ')` and `trim()`, the two length counts (JavaScript's `.length` and the validation library's `isLength`), the strength regex `^(?=.*[a-z])(?=.*[A-Z])(?=.*\d)` and the e-mail regex `\S+@\S+\.\S+` |
| `users.dfy` | `Users` | the user record, roles, statuses, the password hash, the public projection, the store invariant |
| `auth.dfy` | `Auth` | `ExtractToken`, the token verifier as an oracle, `Authenticate`, `IsAdmin` |
| `routes.dfy` | `Routes` | every handler as a pure step from records to (response, records), the router (`Admit`, `Route`, `Dispatch`) and the lemmas about them |
| `store.dfy` | `Store` | class `UserStore`, a map from id to record, whose methods load a record, change it and save it, each proved equal to its step in `Routes`; an end-to-end run |
| `profile.dfy` | `Profile` | the two client validators, the submit guard, and their agreement with the server's validators |

The store is a `map<UserId, User>`. `WellFormed` is its invariant: each
record sits under its own id, and no two records share an e-mail address.
Every handler keeps it (`DispatchKeepsWellFormed`), and `UserStore.Valid()`
is that invariant.

Token verification (`jwt.verify`) is a parameter `verify: string -> VerifyResult`.
It stands for the server's secret and the request's clock, and yields
`Verified(id)`, `Malformed` (a `JsonWebTokenError`), `Expired` (a
`TokenExpiredError`) or `VerifyFailed` (any other error, answered with 500).
The database's sorted, skipped and limited list query is also a parameter:
the `fetched` records of a `ListUsers` request. So is the validation
library's `isEmail().normalizeEmail()` chain on the `email` body field: a
parameter `checkEmail: string -> Option<string>` gives `None` for an address
`isEmail` refuses and otherwise the normalized address.

Points where the code's behaviour is easy to misread:

- A verified token whose id names no stored user is answered with 401
  "User not found" (backend/middleware/auth.js:19-24), not with 404.
- `req.user` is the whole stored record, password hash included
  (backend/middleware/auth.js:33), not a record without secret fields.
  Responses still never carry the hash: they are built from `PublicUser`.
- The e-mail uniqueness check runs whenever a truthy e-mail is supplied.
  It looks only at other records (`_id: { $ne: req.user._id }`), so giving
  one's own address is never a conflict.
- The `fullName` body validator trims the name. A name shorter than 2
  characters after trimming gets 400 "Validation failed", and the trimmed
  name is what gets written.
- The form and the server count lengths differently. The form uses
  JavaScript's `.length`, which counts UTF-16 code units: a character outside
  the Basic Multilingual Plane counts two. The server's `isLength` counts each
  character once and does not count the variation selectors U+FE0E and
  U+FE0F. So the form can send a name (U+1F600 (an emoji)) or a new password
  ("aB1cd" followed by U+FE0F) that the server answers with "Validation
  failed". The model keeps both counts; the agreement lemmas in `Profile`
  hold where the counts agree, and two lemmas exhibit the inputs above.

## Model

| member | source | states |
|---|---|---|
| `Strings.Split` | backend/middleware/auth.js:7 | `split(' ')` gives at least one field, and no field holds a space |
| `Strings.JoinSplit` | backend/middleware/auth.js:7 | joining the fields of `split(' ')` with spaces gives the header back |
| `Strings.SplitJoin` | backend/middleware/auth.js:7 | fields without spaces come back unchanged from a join then a split |
| `Strings.SplitAfterWord` | backend/middleware/auth.js:7 | a spaceless word in front of a string only extends that string's first field |
| `Strings.FirstField` | backend/middleware/auth.js:7 | the first field of `b + rest` is `b` when `rest` is empty or starts with a space |
| `Strings.SecondField` | backend/middleware/auth.js:7 | `split(' ')[1]` of `a + " " + b + rest` is `b` |
| `Strings.TrimStart` | frontend/src/pages/UserProfile.jsx:48 | the result is a suffix, everything dropped is whitespace, and it starts with non-whitespace |
| `Strings.TrimEnd` | frontend/src/pages/UserProfile.jsx:48 | the result is a prefix, everything dropped is whitespace, and it ends with non-whitespace |
| `Strings.Trim` | frontend/src/pages/UserProfile.jsx:48-50 | `trim()` is a slice of the string with only whitespace cut at each end, it has no whitespace at either end, and it is empty exactly when the string is all whitespace |
| `Strings.Utf16Length` | frontend/src/pages/UserProfile.jsx:50 | `.length` of a single character is 2 for one outside the Basic Multilingual Plane and 1 otherwise; over a string it lies between the number of characters and twice that, and equals the number of characters exactly when none is outside the plane |
| `Strings.Utf16LengthAppend` | frontend/src/pages/UserProfile.jsx:50 | `.length` of a concatenation is the sum of the parts' lengths, so with the single-character values it fixes `.length` of every string |
| `Strings.IsLengthCount` | backend/routes/users.js:197-198 | the count `isLength` checks is 0 for a single variation selector and 1 for any other character; over a string it is at most the number of characters, and equal to it exactly when no variation selector occurs |
| `Strings.IsLengthCountAppend` | backend/routes/users.js:197-198 | the count `isLength` checks is additive over a concatenation, so with the single-character values it fixes the count of every string |
| `Strings.LengthCounts` | backend/routes/users.js:197-198 | the server's count never exceeds the form's, and the two are equal exactly when no character is outside the Basic Multilingual Plane and none is a variation selector |
| `Strings.LengthExamples` | frontend/src/pages/UserProfile.jsx:68 | the form's `.length < 6` test and the server's `isLength({ min: 6 })` (backend/routes/users.js:271) count differently: U+1F600 (an emoji) counts 2 to the form and 1 to the server; "aB1cd" with U+FE0F counts 6 and 5 |
| `Strings.FirstLine` | backend/routes/users.js:273 | what a regex `.*` can cover: the longest prefix with no line terminator |
| `Strings.StrengthPatternOnOneLine` | backend/routes/users.js:273 | on a one-line string the lookahead regex holds exactly when a lower-case letter, an upper-case letter and a digit all occur |
| `Strings.LineBreakHidesRest` | frontend/src/pages/UserProfile.jsx:70 | a line break hides the characters after it from the lookaheads: "ab\nC1" is refused and "abC1" accepted |
| `Strings.EmailPatternNeeds` | frontend/src/pages/UserProfile.jsx:55 | a string the e-mail regex matches has at least five characters, an `@` and a `.` |
| `Strings.EmailPatternExamples` | frontend/src/pages/UserProfile.jsx:55 | "a@b.c" matches `\S+@\S+\.\S+`; "a@ .c" does not |
| `Users.CompareAgainstHash` | backend/routes/users.js:292-301 | a password verifies against its own stored hash, and against no other password's hash |
| `Users.Project` | backend/routes/users.js:30-39 | the outward record keeps id, email, fullName, role and status and has no password |
| `Auth.ExtractToken` | backend/middleware/auth.js:7-9 | the token is missing exactly when the header is absent or empty |
| `Auth.ExtractBearer` | backend/middleware/auth.js:7 | "Scheme token" and "Scheme token more" give "token", whatever the scheme word |
| `Auth.ExtractBareToken` | backend/middleware/auth.js:7 | a header without a space, "Bearer" alone included, is itself the token |
| `Auth.ExtractEmptySecondField` | backend/middleware/auth.js:7 | an empty second field ("Bearer ", "Bearer  x") makes the whole header the token |
| `Auth.Authenticate` | backend/middleware/auth.js:5-53 | admits exactly when the token verifies to an id of a stored, active user; then the principal is that stored record and is active |
| `Auth.MissingTokenConsultsNothing` | backend/middleware/auth.js:9-14 | no token gives 401 whatever the verifier and the store hold |
| `Auth.VerifyFailureConsultsNoStore` | backend/middleware/auth.js:35-52 | a token that fails verification is answered without the store: 401 invalid, 401 expired, 500 otherwise |
| `Auth.UnknownUserRejected` | backend/middleware/auth.js:17-24 | a verified id with no stored record gives 401 "User not found" |
| `Auth.InactiveAccountRejected` | backend/middleware/auth.js:26-31 | a verified token for an inactive account gives 403 |
| `Auth.IsAdmin` | backend/middleware/auth.js:56-64 | passes exactly for role admin and changes nothing; every other role gets 403 |
| `Routes.OrDefault` | backend/routes/users.js:16-17 | `parseInt(x) \|\| d` keeps any non-zero parse, negative ones included, and gives `d` for NaN or 0 |
| `Routes.CeilDiv` | backend/routes/users.js:27 | `Math.ceil(total / limit)` is the least integer at or above the quotient, for either sign of `limit` |
| `Routes.Paginate` | backend/routes/users.js:16-51 | page defaults to 1 and limit to 10; totalPages is `Math.ceil(total / limit)`, pinned by `(totalPages - 1) * limit < total <= totalPages * limit` for a positive limit and by the mirrored bounds (so at most 0) for a negative one; hasNextPage iff page < totalPages, hasPrevPage iff page > 1 |
| `Routes.PageWindow` | backend/routes/users.js:18-51 | with a positive limit and a page from 1 on: hasNextPage iff records remain past `skip + limit`, hasPrevPage iff `skip > 0` |
| `Routes.ListEntries` | backend/routes/users.js:30-39 | one projected entry per fetched record, in order, none with a password |
| `Routes.ActivateEffect` | backend/routes/users.js:69-97 | 404 for an unknown id; writes exactly when the target is inactive, and then changes only its status, to active, and returns it |
| `Routes.DeactivateEffect` | backend/routes/users.js:114-151 | 404 for an unknown id; 400 "User is already inactive" for an inactive target; writes exactly when the target is active and not the caller, and then changes only its status, to inactive |
| `Routes.ActivateTwiceConflicts` | backend/routes/users.js:77-82 | a second activation is refused with 400 "already active" and writes nothing |
| `Routes.DeactivateThenActivate` | backend/routes/users.js:84-138 | activation undoes a successful deactivation: every record is restored |
| `Routes.EmailConflict` | backend/routes/users.js:194-230 | an address `isEmail` refuses gives 400 "Validation failed"; a normalized address another record holds gives 400 with no write; one no other record holds lets an accepted update through; the caller's own address is never a conflict |
| `Routes.UpdateProfileWritesOnlySupplied` | backend/routes/users.js:216-236 | a successful update changes only the caller's record, and in it only the supplied name (trimmed) and the supplied e-mail (normalized, when truthy) |
| `Routes.UpdateProfileKeepsWellFormed` | backend/routes/users.js:220-236 | after an update no two records share an e-mail address |
| `Routes.WeakPasswordReadsNoStore` | backend/routes/users.js:266-284 | a body that fails validation gets 400 whatever the store holds, and nothing is written |
| `Routes.ChangePasswordEffect` | backend/routes/users.js:286-307 | a wrong current password gives 401 and keeps the hash; a right one replaces only the hash, and then the new password verifies and a different old one does not |
| `Routes.Admit` | backend/routes/users.js:9-14 | a request passes exactly when `authenticate` admits it and, on an admin route, the principal is an admin; when `authenticate` refuses, its error is the answer, and an authenticated non-admin on an admin route gets `isAdmin`'s 403 error |
| `Routes.GateFailureWritesNothing` | backend/routes/users.js:9 | a request a gate refuses writes nothing and gets the gate's answer: `authenticate`'s own status and message when it refuses, otherwise `isAdmin`'s 403 "Access denied. Admin privileges required." |
| `Routes.NonAdminRefused` | backend/routes/users.js:14 | `isAdmin` guards list (line 14), activate (line 67) and deactivate (line 112): a non-admin gets 403 on each, with no write |
| `Routes.InactiveCallerRefusedEverywhere` | backend/middleware/auth.js:26-31 | an inactive account gets 403 on every route although its token verifies |
| `Routes.SelfDeactivationRefused` | backend/routes/users.js:122-135 | an admin deactivating their own account always reaches the self guard: 400, no write |
| `Routes.DispatchKeepsWellFormed` | backend/routes/users.js:9 | every request keeps ids and unique e-mails |
| `Store.UserStore.Activate` | backend/routes/users.js:67-107 | loading, setting `status` and saving gives exactly the activate step, and keeps the invariant |
| `Store.UserStore.Deactivate` | backend/routes/users.js:112-160 | loading, checking, setting `status` and saving gives exactly the deactivate step |
| `Store.UserStore.UpdateProfile` | backend/routes/users.js:194-261 | building `updateData` field by field and writing it gives exactly the profile step, and keeps e-mails unique |
| `Store.UserStore.ChangePassword` | backend/routes/users.js:266-315 | validating, comparing and saving the new hash gives exactly the password step |
| `Store.UserStore.Handle` | backend/routes/users.js:9-14 | `authenticate`, then `isAdmin` on admin routes, then the handler, gives exactly `Dispatch` |
| `Store.AdminAndUserRun` | backend/tests/users.test.js:51-79 | admin lists (200), user refused (403), no token (401); then, continuing the same scenario, the admin deactivates the user (200), after which the user's token gets 403, and the admin's self-deactivation gets 400 |
| `Profile.ValidateProfile` | frontend/src/pages/UserProfile.jsx:46-59 | a name error exactly when the trimmed name is shorter than 2 UTF-16 code units, "required" exactly when the name is all whitespace; an e-mail error exactly when the regex fails, "required" exactly when it is empty |
| `Profile.ValidatePassword` | frontend/src/pages/UserProfile.jsx:61-77 | current-password error ("Current password is required") iff empty; one new-password error iff it is shorter than 6 UTF-16 code units or fails the strength regex, naming the first failing check; confirmation error ("Passwords do not match") iff it differs |
| `Profile.ClientNameRuleIsServerRule` | frontend/src/pages/UserProfile.jsx:48-52 | a name the server's `fullName` validator accepts draws no error on the form; where the two length counts agree, the form files no name error exactly when the server accepts |
| `Profile.ClientPasswordRuleIsServerRule` | frontend/src/pages/UserProfile.jsx:66-72 | a new password the server accepts draws no error on the form; where the two length counts agree, the rules coincide, and with a matching confirmation the form passes iff the body passes the server's validators |
| `Profile.SubmitProfile` | frontend/src/pages/UserProfile.jsx:95-105 | a non-empty error map blocks the submit and is kept; otherwise the untrimmed form is sent |
| `Profile.SubmitPassword` | frontend/src/pages/UserProfile.jsx:118-131 | a non-empty error map blocks the submit; otherwise only current and new password are sent |
| `Profile.SentProfilePassesServerValidation` | frontend/src/pages/UserProfile.jsx:95-105 | where the counts agree on the trimmed name, a sent profile passes the server's name check; if `isEmail` also accepts the address and no other record holds its normalized form, the trimmed name and the normalized address are written |
| `Profile.SentPasswordPassesServerValidation` | frontend/src/pages/UserProfile.jsx:118-131 | where the counts agree on the new password, a sent password change is never answered "Validation failed" |
| `Profile.AstralNameSentButRefused` | frontend/src/pages/UserProfile.jsx:95-105 | the form sends the name U+1F600 (an emoji) and the server's `fullName` validator refuses it |
| `Profile.SelectorPasswordSentButRefused` | frontend/src/pages/UserProfile.jsx:118-131 | the form sends the new password "aB1cd" followed by U+FE0F, and the server answers 400 "Validation failed" |

## Left out

- HTTP plumbing: status and JSON rendering, `console.error` logging, `router.use` wiring. A handler's result is a `Response` (status, message, data). `success` is `status == 200`.
- JSON Web Token signing, signature and expiry checks, and token issuance (`generateToken`, whose file is not part of this model) are the `verify` oracle. A `NotBeforeError` from the library falls under `VerifyFailed`, which gets 500.
- Password hashing: the bcrypt hash and `comparePassword` of `models/User` (not part of this model) are an injective digest.
- Users.CompareAgainstHash: states that a different password never verifies. bcrypt ignores bytes past the 72nd, so two passwords that agree on those bytes would both verify.
- The `isEmail` and `normalizeEmail` validators of `PATCH /profile` belong to a library and are the `checkEmail` parameter. Which addresses `isEmail` accepts is not modelled. The form's regex accepts addresses `isEmail` refuses (a one-letter top-level domain, as in "a@b.c"), so a profile the form sends can still get 400.
- SentProfilePassesServerValidation: promises success only when `checkEmail` accepts the address, because what `isEmail` accepts is a parameter here.
- Database failures: a store read or write that throws (500), and casting a malformed `:id` to an ObjectId (500), are not modelled. The store is always reachable. A caller whose record disappears before the update is modelled (500).
- A negative `skip`: `(page - 1) * limit` is negative when page > 1 with a negative limit, or page < 1 with a positive one. The database refuses a negative skip, and the code answers 500 "Server error while fetching users". The model does not run the query, so `ListResponse` answers 200 with the computed pagination there. At page 1 the skip is 0, so a negative limit alone passes and the code, like the model, answers 200.
- The list query's sort by `createdAt`, its `skip`/`limit`, and which records it returns run in the database. Only the pagination arithmetic and the projection are modelled.
- Routes.CeilDiv: exact integer ceiling; JavaScript's floating-point division differs only for totals beyond 2^53.
- Timestamps (`createdAt`, `updatedAt`, `lastLogin`): the store maintains them, and they are not part of the record here.
- Concurrency: the read-then-write races on e-mail uniqueness and on status. Requests run one after another.
- Frontend outside the two validators and the submit guard: React state, toasts, rendering, the auth context, the admin dashboard and the other components.
- ClientNameRuleIsServerRule: the two rules coincide only where the length counts agree on the trimmed name. A character outside the Basic Multilingual Plane or a variation selector (U+FE0E, U+FE0F, both inside the plane) makes the form accept names the server refuses, as `AstralNameSentButRefused` shows.
- ClientPasswordRuleIsServerRule: the same holds for the new password, for the same two kinds of character.
- SentProfilePassesServerValidation: the name half is promised only where the counts agree, for the reason above.
- SentPasswordPassesServerValidation: promised only where the counts agree, because the form can send a password the server refuses, as `SelectorPasswordSentButRefused` shows.
- JSON bodies with `null` or non-string fields: a missing string field is `None` (profile) or `""` (password change).
