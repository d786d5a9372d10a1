# Streamly authentication handlers in Dafny

This project models the authentication controller of the Streamly chat backend,
`backend/src/controllers/auth.controller.js`. It has three request handlers:

- **signup** checks, in this order, that fullName, email and password are present,
  that the password has at least six characters, that the email matches
  `^[^\s@]+@[^\s@]+\.[^\s@]+$`, and that no user already has the email.
  It answers 400, 400, 400 or 409 when a check fails. Otherwise it creates the user
  with a random avatar, signs a seven-day session token, sets the `jwt` cookie and answers 201.
- **login** checks that email and password are present (400), looks the user up and
  asks the User model to compare the password. It answers 401 with one message for
  both an unknown email and a wrong password. On success it sets the same cookie and answers 200.
- **logout** clears the `jwt` cookie and answers 200.

Files and modules:

- `wrappers.dfy` (`Wrappers`): the `Option` type.
- `numerals.dfy` (`Numerals`): decimal printing of the avatar number and its read-back.
- `validation.dfy` (`Validation`): the input checks.
  - Presence follows JavaScript truthiness: absent, null or `""` is missing.
  - Password length is `String.prototype.length`, i.e. UTF-16 code units.
  - The email regular expression is written twice: as its language (`MatchesEmailPattern`)
    and as a decision procedure (`EmailRegexTest`). A lemma proves the two equal.
- `directory.dfy` (`Directory`): the user directory, a class holding a map from email to user.
  `FindOne` is the lookup; `Create` is the insert that assigns a fresh identity.
- `session.dfy` (`Session`): the opaque token, the cookie constants, and how the
  signer reads the expiry `"7d"`.
- `auth_controller.dfy` (`AuthController`): the three handlers and the avatar URL.
- `scenarios.dfy` (`Scenarios`): request sequences proved from the handler contracts alone.

Points about the code that a reader might not expect (the model follows the code):

- The handlers answer with the whole object that `User.create` / `User.findOne` returned,
  not a sanitised copy. So the model's response carries the full `User`, including the
  `password` field that was passed to `create`.
- The controller never calls the chat-directory sync in `backend/src/lib/stream.js`.
- The duplicate check is a lookup followed by a separate insert. The model is sequential,
  so it cannot show a race between the two steps.

## Model

| member | source | states |
|---|---|---|
| Validation.Present | backend/src/controllers/auth.controller.js:26 | `!field` is false exactly for a field holding a non-empty string; login uses the same test at line 120 |
| Validation.PresentIsNonZeroLength | backend/src/controllers/auth.controller.js:26 | a field is present exactly when it holds a string whose JavaScript `.length` is not zero |
| Validation.Utf16Length | backend/src/controllers/auth.controller.js:30 | `password.length` counts at least one and at most two code units per character |
| Validation.PasswordTooShort | backend/src/controllers/auth.controller.js:30 | `password.length < 6` can reject only passwords under six characters, and rejects every password under three |
| Validation.Utf16LengthBounds | backend/src/controllers/auth.controller.js:30 | `password.length` lies between the number of characters and twice it, and equals it exactly when every character is in the Basic Multilingual Plane |
| Validation.PasswordTooShortInBasicPlane | backend/src/controllers/auth.controller.js:30-34 | for ordinary text the password rule rejects exactly the passwords under six characters: five are rejected, six pass |
| Validation.PasswordOfAstralCharacters | backend/src/controllers/auth.controller.js:30 | three characters outside the Basic Multilingual Plane already pass the length rule, because JavaScript counts code units |
| Validation.FirstAt | backend/src/controllers/auth.controller.js:37-38 | finds the first `@`, or reports that there is none |
| Validation.MatchesEmailPattern | backend/src/controllers/auth.controller.js:37 | the language of `^[^\s@]+@[^\s@]+\.[^\s@]+$`: a local part, `@`, a host, `.`, a top-level part, each a non-empty run of characters other than `@` and whitespace; its words have at least five characters |
| Validation.EmailRegexTest | backend/src/controllers/auth.controller.js:37-38 | `emailRegex.test(email)`: an accepted email contains `@` and has at least five characters (the equivalence with the pattern is the next row) |
| Validation.EmailRegexTestIsPattern | backend/src/controllers/auth.controller.js:37-42 | the email test accepts exactly the language of `^[^\s@]+@[^\s@]+\.[^\s@]+$`, in both directions |
| Validation.AcceptedEmailShape | backend/src/controllers/auth.controller.js:37 | an accepted email holds exactly one `@` and no whitespace |
| Numerals.Decimal | backend/src/controllers/auth.controller.js:58 | the printed avatar number is a non-empty digit string with no leading zero |
| Numerals.DecimalRoundTrip | backend/src/controllers/auth.controller.js:58 | reading the printed number back gives the number |
| Numerals.DecimalInjective | backend/src/controllers/auth.controller.js:58 | distinct avatar numbers print differently |
| AuthController.AvatarId | backend/src/controllers/auth.controller.js:57 | `Math.floor(Math.random() * 100 + 1)` lies in 1..100 for every draw in [0, 1) |
| AuthController.AvatarIdReachesAll | backend/src/controllers/auth.controller.js:57 | every avatar number 1..100 can be drawn |
| AuthController.AvatarUrl | backend/src/controllers/auth.controller.js:58 | the profile picture URL is the fixed prefix, the avatar number in decimal without leading zeros, then `.png`, and the number reads back from it |
| Directory.UserStore.FindOne | backend/src/controllers/auth.controller.js:47-48 | the lookup finds a user exactly when one is filed under the email, and the user found has that email |
| Directory.UserStore.Valid | backend/src/controllers/auth.controller.js:47-66 | the directory's invariant: every user is filed under its own email, and identities are distinct and already issued; `Create` keeps it |
| Directory.UserStore.Create | backend/src/controllers/auth.controller.js:61-66 | adds exactly one user, with the given fields and an identity no other user has, and changes no other entry |
| AuthController.Signup | backend/src/controllers/auth.controller.js:19-88 | the checks run in order: presence, length, format, duplicate. Each failure gives its own status and message and leaves the directory unchanged. Success adds one user with the given name and password and a 1..100 avatar URL, and answers 201 with `success: true` and the session cookie |
| AuthController.Login | backend/src/controllers/auth.controller.js:112-158 | a missing field gives 400. An unknown email and a wrong password both give the identical 401. A match gives 200 with the stored user and the session cookie. The directory is only read |
| AuthController.Logout | backend/src/controllers/auth.controller.js:166-169 | answers 200 with the logged-out message and clears the `jwt` cookie |
| AuthController.LogoutIgnoresSession | backend/src/controllers/auth.controller.js:166-169 | logout does not depend on the session the client presents, so repeating it gives the same answer |
| AuthController.SessionCookieAttributes | backend/src/controllers/auth.controller.js:71-82 | the session cookie is named `jwt` and names the user. It has maxAge 604800000, httpOnly and sameSite `strict`. It is secure exactly when NODE_ENV is `production`, and its token's `"7d"` expiry equals the cookie's maxAge |
| Session.Sign | backend/src/controllers/auth.controller.js:71-73 | the signed token names the user's identity and expires after exactly 604800000 ms; login signs the same way at lines 141-143 |
| Session.SessionCookie | backend/src/controllers/auth.controller.js:76-82 | the cookie is named `jwt` and carries the token. It is httpOnly with sameSite `strict`, and secure exactly when NODE_ENV is `production`. A cookie for a `"7d"` token has a maxAge equal to the token's lifetime; login sets the same cookie at lines 146-152 |
| Session.DurationMs | backend/src/controllers/auth.controller.js:72 | the signer's reading of `expiresIn` always gives a whole number of seconds |
| Session.TokenAndCookieLifetimesAgree | backend/src/controllers/auth.controller.js:71-78 | the token expiry `"7d"` denotes exactly the cookie's 604800000 ms |
| Scenarios.SignupThenLogin | backend/src/controllers/auth.controller.js:19-158 | after a successful signup, a login with the same email and password answers 200 with the same user and cookie, provided the User model's comparison accepts the password the user was created with |
| Scenarios.AdaEmailAccepted | backend/src/controllers/auth.controller.js:37-42 | `ada@x.com` passes the email format check |
| Scenarios.AdaPasswordLongEnough | backend/src/controllers/auth.controller.js:30-34 | `secret1` passes the password length check |
| Scenarios.AdaLovelace | backend/src/controllers/auth.controller.js:19-158 | signup answers 201 and a repeated signup answers 409. A wrong password answers 401. The right password answers 200 with a 604800000 ms cookie |

## Left out

- The User model (`../models/User.js`) is not part of this model. `matchPasswords` is a function
  parameter of `Login`. Any hashing the User model does on save is not modelled, so `Create` stores
  the `password` value it is given.
- Token signing uses `jsonwebtoken`: the secret, the signature, the issued-at time and verification
  are not modelled. A token is the identity it names plus its `"7d"` expiry.
- `Session.DurationMs` reads only durations of the form `<digits><unit>` with unit s, m, h, d or w,
  which covers the `"7d"` the handlers use.
- The `try/catch` 500 answers are left out. They come from exceptions the model does not represent:
  - The database, the token signer and the User model can throw, and none of them is modelled.
  - A token-signer failure after `User.create` (for example with `JWT_SECRET` unset) answers 500,
    but the new user stays stored.
  - A missing or null request body makes the destructuring of `req.body` throw. In signup that
    line (`auth.controller.js:20`) sits before the `try`, so the rejection escapes the controller's
    catch. Under Express 4 it is an unhandled rejection, which ends the process on Node 15 or later.
    Under Express 5, Express's own error handler answers 500. In login it sits inside the `try` (line 115), so login answers 500.
    The model always has a parsed body.
- Body strings are Dafny strings, whose characters are Unicode scalar values. A string holding an
  unpaired surrogate (legal JSON such as `"\ud800"`, which JavaScript counts in `.length`) cannot be
  represented.
- `Math.random` is a parameter in [0, 1). The avatar arithmetic is over exact reals, not IEEE doubles.
- Request body fields are strings or absent/null. Other JSON values are left out, such as a numeric
  password, whose `.length` is undefined and so passes the length check.
- `console.log`, the async/await machinery and Express's response object: handlers return
  their status, JSON body and cookie operation as a value.
- `backend/src/lib/db.js`, `backend/src/lib/stream.js`, `backend/src/routes/auth.route.js` and
  `backend/src/server.js` hold connection set-up, an external chat SDK wrapper and routing only.
  `server.js` mounts neither the auth router nor a JSON body parser.
- Concurrency between requests: the duplicate check and the insert are one sequential step here.
