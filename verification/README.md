# User-account service: directory transitions and the Bearer gate

This project models the two parts of a small Express user-account service
that carry sequential logic:

- the **user directory** in `route.js`: an ordered list of user records
  (`id`, `name`, `email`, bcrypt `password` hash) read and rewritten by the
  handlers `signUp`, `login`, `getUser`, `updateUser`, `deleteUser` and
  `changePassword`, with the helpers `isEmailUnique` and `findUserById`;
- the **authentication gate** in `middleware/auth.js`, which parses the
  `Authorization` header, verifies the token after `Bearer` and either answers
  401 or calls `next` with `req.user` set.

Each handler is a pure function from the directory and the request to a
`Reply(dir, response, saved)`: the directory afterwards, the status code with
its JSON payload, and whether a rewrite of the snapshot file was started.
The libraries the service calls are parameters the model does not look into:
bcrypt's `hash`/`compare`, `jwt.sign`/`jwt.verify` and the email-syntax check
(`Routes.Libraries`, and the `verify` argument of `Auth.Gate`). A `None` from
`hash` or `compare` is the error their callbacks receive. The id a new user
gets is an argument with `10 <= id <= 99`, the range of `generateRandomId`.
Where the model needs a fact about a library, it is a predicate that the
lemmas take as a precondition:

- `Routes.CompareAcceptsOwnHash` says bcrypt accepts a password against its own hash.
- `Jwt.VerifiesOwnTokens` says a token that `sign` issued is non-empty and has no spaces. Within its validity window, `verify` returns the signed claims plus only `iat`/`exp`.

Modules: `Wrappers` (Option), `Http` (status codes), `Search` (`findIndex`, `find`, `some`),
`Directory` (records and first-match lookups), `Text` (`startsWith`,
`split`, `join`), `Jwt` (claims), `Routes` (the six handlers), `Auth` (the
gate), `Session` (properties that span several requests).

Behaviour of the code that the model keeps on purpose:

- Ids are random two-digit values and are not checked for collisions. Every
  lookup by id returns the first match, and `deleteUser` removes only the first
  one. So deleting an id and then looking it up can still find a user
  (`Session.DeleteThenGet`, `Session.DeleteLeavesTwin`).
- A duplicate email at sign-up is answered with 400, not a separate conflict status.
- `updateUser` checks neither the format nor the uniqueness of a new email, and its
  response echoes the request body rather than the stored record.
- Login signs the claims `{id, email}`, but the gate reads `{id, username}`, so
  `req.user.username` is always undefined for a token issued by login
  (`Session.LoginTokenPassesGate`).
- The gate only checks that the header starts with `Bearer`. No space is needed
  after it, and the token is the second piece of `split(" ")`.

## Model

| member | source | states |
|---|---|---|
| Search.FindIndex | route.js:160 | `findIndex` returns -1 exactly when no element matches; otherwise it returns an index that matches and has no match before it |
| Search.Find | route.js:113 | `find` is undefined exactly when nothing matches; otherwise it returns a matching element with no match before its position |
| Search.Any | route.js:30 | `some` holds exactly when some element matches |
| Directory.IsEmailUnique | route.js:29-31 | true exactly when no record has that email |
| Directory.IndexOfId | route.js:160 | -1 exactly when no record has the id; otherwise the first index whose record has it |
| Directory.IndexOfEmail | route.js:86 | -1 exactly when no record has the email; otherwise the first index whose record has it |
| Directory.FindUserById | route.js:112-114 | undefined exactly when no record has the id; otherwise a record with that id and no earlier record with it |
| Directory.RemoveAt | route.js:168 | `splice(k, 1)` shortens the list by one, keeps the records before `k` and shifts the later ones down in order; the multiset loses exactly the removed record |
| Text.StartsWith | middleware/auth.js:6 | `startsWith(prefix)` holds exactly when the prefix is no longer than the string and agrees with it character by character |
| Text.Split | middleware/auth.js:10 | `split(" ")` yields at least one piece, and no piece holds the separator |
| Text.JoinSplit | middleware/auth.js:10 | joining the pieces of a split gives back the original header |
| Text.SplitJoin | middleware/auth.js:10 | splitting a join of separator-free pieces gives back those pieces |
| Text.SplitSingle | middleware/auth.js:10 | a header splits into a single piece exactly when it has no space |
| Text.FirstPiece | middleware/auth.js:10 | the first piece runs up to the first space, and the remaining pieces are the pieces of the text after it |
| Auth.TokenOf | middleware/auth.js:10 | `split(" ")[1]` is undefined exactly when the header has no space, and it never contains a space |
| Auth.TokenBetweenSpaces | middleware/auth.js:10-14 | the token is exactly the text between the first and second spaces, or between the first space and the end |
| Auth.Gate | middleware/auth.js:3-25 | a missing header or one not starting with `Bearer` gets 401 "No Bearer token". After the prefix test passes, a missing or empty token gets 401 "Token not provided", and a token that fails verification gets 401 "Route access not authorized". The request is admitted exactly when the token piece is present, non-empty and verifies. Admission needs a space in the header and sets `req.user` to the decoded `id` and `username`. Every rejection is 401 |
| Auth.BareSchemeRejected | middleware/auth.js:10-14 | the header `Bearer` alone is refused with 401 "Token not provided" |
| Auth.DoubleSpaceRejected | middleware/auth.js:10-14 | `Bearer` followed by two spaces yields an empty token and is refused with 401 "Token not provided", whatever follows |
| Auth.NoSpaceAfterScheme | middleware/auth.js:6-24 | `Bearer` + junk + space + token passes the prefix test, and exactly that token is handed to verification. The outcome is 401 or admission, depending only on what verification returns |
| Auth.BearerTokenVerified | middleware/auth.js:6-24 | a non-empty, space-free token sent as `Bearer <token>` is passed to verification unchanged. A failed verification gives 401; a successful one admits the request with the decoded `id` and `username` |
| Jwt.OwnTokenClaims | middleware/auth.js:17-18 | under the token-library assumption, verifying a freshly signed token returns every signed claim, and no `username` unless one was signed |
| Routes.LoginClaims | route.js:94-95 | a login token is signed over exactly the claims `id` and `email`, carrying the user's id and email; there is no `username` claim |
| Routes.SignUp | route.js:37-76 | missing fields, then an invalid email, then a taken email are each refused with their own 400 message, in that order. A hashing error gives 500. Every failure leaves the directory unchanged and writes nothing. 201 is returned exactly when all checks pass and hashing succeeds. It appends one record `{id, name, email, hash}` after the unchanged earlier records, starts a save, and returns the new record |
| Routes.Login | route.js:78-109 | never changes the directory and never saves. Missing fields give 400; an unknown email gives 401. Otherwise the first record with the email is compared: an error gives 500, a mismatch gives 401, and a match gives 200 with that record and a token signed over its `{id, email}`. 200 is returned exactly when the first record with the email accepts the password |
| Routes.GetUser | route.js:117-127 | never changes the directory. 404 is returned exactly when no record has the id; otherwise 200 with the first record that has it |
| Routes.Patch | route.js:142-148 | id and password are kept. Name and email are replaced only by fields that are present and non-empty |
| Routes.UpdateUser | route.js:130-155 | an unknown id gives 404 and changes nothing. Otherwise only the first record with the id is patched and every other record is unchanged. The save starts even for an empty patch, and the response echoes the submitted body |
| Routes.DeleteUser | route.js:158-173 | an unknown id gives 404 and changes nothing. Otherwise the record at the first matching index is removed, the order of the others is kept, and a save starts |
| Routes.ChangePassword | route.js:176-204 | an unknown id gives 404 even when the password is missing. A missing password gives 400 and a hashing error gives 500, and neither changes anything. 201 is returned exactly when the id exists, the password is present and hashing succeeds. On success only the first matching record's hash is replaced |
| Session.SignUpThenLogin | route.js:57-101 | right after a successful sign-up, logging in with the same email and password returns 200 with the new record and a token over its id and email |
| Session.LoginTokenPassesGate | middleware/auth.js:16-21 | a token from a successful login, sent as `Bearer <token>`, is admitted by the gate. `req.user` then holds the user's id and an undefined username, because login signs `{id, email}` (route.js:94-95) |
| Session.DuplicateSignUpRefused | route.js:50-53 | a second valid sign-up with an email that is already registered is refused as "Email is already in use", and the two attempts grow the directory by one |
| Session.DeleteRemovesOne | route.js:160-168 | a successful delete removes exactly one record with the id: the multiset of records loses only that record, and the number of records with the id drops by one |
| Session.DeleteThenGet | route.js:158-168 | after a successful delete, looking up the same id gives 404 exactly when only one record had that id |
| Session.DeleteLeavesTwin | route.js:62 | with two records that share id 42, deleting 42 and then reading 42 returns the second record |
| Session.SignUpThenGet | route.js:62 | after a sign-up, its id is always found. The lookup returns the new record exactly when no earlier record already had that id |
| Session.SignUpKeepsEmailsUnique | route.js:50-68 | if no two records share an email before a sign-up, none do after it |
| Session.UpdateCanDuplicateEmail | route.js:146-148 | an update can give a user an email that another user already has |
| Session.DeleteKeepsEmailsUnique | route.js:168 | delete keeps emails pairwise distinct |
| Session.ChangePasswordKeepsEmailsUnique | route.js:198 | changing a password keeps emails pairwise distinct |
| Session.SignUpKeepsIdsInRange | route.js:33-35 | if every id is in [10, 99] before a sign-up, every id is in that range after it |
| Session.DeleteKeepsIdsInRange | route.js:168 | delete keeps every id in [10, 99] |
| Session.EditsKeepIdsInRange | route.js:142-198 | update and password change keep every id in [10, 99] |
| Session.UpdateIdempotent | route.js:140-148 | sending the same update a second time leaves the directory and the response as the first time left them |
| Session.ChangePasswordThenLogin | route.js:193-198 | after a password change, with emails unique, logging in with the user's email and the new password returns 200 for that user |

## Left out

- Loading `users.json` at startup and `saveUsersToFile` (route.js:8-27) are asynchronous file I/O whose failures are only logged. The model keeps just the `saved` flag, which records that a rewrite was started.
- The internals of bcrypt, jsonwebtoken and email-validator are foreign libraries and appear as function parameters. `hash` is a function of the password, so the random salt is part of whichever `Libraries` value a call receives. That a stored hash never equals the plaintext is a property of bcrypt and is not stated.
- The expiry clock and the secret of the token library are folded into `verify`. Acceptance before expiry is the `VerifiesOwnTokens` assumption; rejection after expiry is not modelled.
- `jwt.sign` throwing inside the compare callback (for example with no secret configured) is not modelled.
- `Math.random` and the float arithmetic in `generateRandomId` (route.js:33-35) are replaced by the `id` argument with `10 <= id <= 99`.
- `parseInt` of the route parameter is not modelled: the id arrives as an integer, and a NaN simply matches no record.
- Request bodies are modelled with optional string properties only. A non-string truthy value, such as a number stored as a name, is not modelled.
- Interleaving of concurrent requests around the asynchronous hash and compare callbacks is out of scope: each handler is atomic. This includes a record that is deleted while its password hash is being computed.
- `app.js` is route registration, body parsing, the 404 fallback and `listen`. The routing facts are not modelled: which handler sits behind which path, and that delete and change-password have no gate.
- The gate calls `next()` inside its `try` block. A downstream exception caught there and turned into 401 is not modelled.
- `console.log` / `console.error` output and HTTP formatting beyond the status code and JSON payload are not modelled.
