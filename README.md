# express-login-api account service, modelled in Dafny

The service keeps a collection of user accounts (id, unique username, bcrypt
password hash) and exposes five HTTP handlers: `/register`, `/login`,
`/getuser`, `/update` and `/delete`. The last three are guarded by a JSON Web
Token passed in the `x-access-token` header, issued by `/login` with a
24-hour expiry. Each handler is a fixed chain of early returns, each with its
own status code.

The model:

- `Accounts` (accounts.dfy) holds the account table `map<Id, Account>` and the
  handlers. `/login` and `/getuser` only read the table, so they are the
  functions `Login` and `GetUser`. `/register`, `/update` and `/delete` change
  it, so they are methods of the class `AccountService`. Each method's
  postcondition names the status of every branch and the exact new table. The
  object invariant `Valid()` holds the unique username index and the fact that
  ids are never reused.
- `Bcrypt` (bcrypt.dfy) stands for bcryptjs. `Hash` takes the random salt as a
  parameter. The model treats the hash as exact: `Matches` holds exactly when
  the digest was made from that very password. The table stores `Digest`
  values, never plaintext strings.
- `Jwt` (jwt.dfy) stands for jsonwebtoken. A token has three dot-separated
  segments, as in the JWS compact serialisation (section 7.1 of RFC 7515).
  The segments carry the subject, the `exp` claim (section 4.1.4 of RFC 7519)
  and a signature, written as decimal numerals (`Decimal`, decimal.dfy).
  `Verify` accepts a token exactly when the signature matches the key and the
  current time is before `exp`. Any other string verifies to `None`.
- `Scenarios` (scenarios.dfy) replays request sequences from the test suite
  and states the statuses a client observes.

Request fields and the token header are `Option<string>`. JavaScript
truthiness (`!username`, `if (password)`) is `Truthy`: present and not empty.
The clock (`now`, seconds) and bcrypt's salt are parameters. The JWT secret is
the constant `key` of the service.

Three behaviours of the code the model keeps:

- `/login` does not check for missing fields (express-login-api/app.js:52-63).
- Every token verification failure, malformed, badly signed or expired,
  answers 500 (express-login-api/app.js:76-78).
- `/update` does not check that a new username is free
  (express-login-api/app.js:117-125). The store's unique index rejects the
  save, and the handler answers 500.

## Model

| member | source | states |
|---|---|---|
| Bcrypt.Hash | express-login-api/app.js:36 | the digest matches the hashed password and no other, with cost factor 8 |
| Bcrypt.SaltedHashes | express-login-api/app.js:36 | two hashes of one password with different salts differ, and both match it |
| Jwt.VerifyCompact | express-login-api/app.js:76-79 | a token is accepted iff its signature is the key's signature of its claims and it has not expired; then it yields its subject |
| Jwt.VerifySign | express-login-api/app.js:62 | round trip: a token signed at time iat verifies to its subject exactly while now < iat + 86400 |
| Bcrypt.Matches | express-login-api/app.js:57 | compareSync; its property (a digest matches its own password and no other) is stated by Bcrypt.Hash |
| Jwt.Sign | express-login-api/app.js:62 | the token is never empty (so it passes the header check); Jwt.VerifySign states that it verifies to its subject until expiry |
| Jwt.Verify | express-login-api/app.js:76-79 | every accepted string is a token signed with the key for that subject, with an expiry still in the future, so arbitrary strings give None; Jwt.VerifySign states the converse |
| Jwt.VerifyNeedsSegments | express-login-api/app.test.js:138-145 | a string with no segment separator never verifies |
| Accounts.FindByUsername | express-login-api/app.js:32-33 | finds an account iff one has the username; under the unique index it is the only one |
| Accounts.Login | express-login-api/app.js:48-67 | 404 iff no account has the username, whatever the password; 401 iff it has one and the password does not match; 200 iff it matches, with a token for that account's id; the table is not changed |
| Accounts.CheckToken | express-login-api/app.js:71-79 | a missing or empty header is NoToken, a header that fails verification is BadToken, otherwise the verified subject |
| Accounts.RejectStatus | express-login-api/app.js:72-78 | no token answers 401, a bad token answers 500 |
| Accounts.GetUser | express-login-api/app.js:70-96 | 401 / 500 for the token checks, before any lookup; 404 iff the subject is absent; 200 iff present, with its current username; read-only |
| Accounts.Patched | express-login-api/app.js:115-123 | only truthy fields change: a new username replaces the old one, a new password is rehashed and only it matches; absent or empty fields keep their old values |
| Accounts.AccountService.constructor | express-login-api/app.test.js:13-16 | the service starts with an empty table that satisfies the invariant |
| Accounts.AccountService.Register | express-login-api/app.js:25-45 | 400 and no change unless both fields are truthy (checked first); 409 and no change if the username is taken; else 201 and exactly one new account under a fresh id with the username and the password's hash; the unique index is kept |
| Accounts.AccountService.Update | express-login-api/app.js:99-132 | 401 / 500 with no change for the token checks; 404 with no change if the subject is absent; 500 with no change if the new username belongs to another account; else 200 and only the subject's record replaced by its patch; ids and other accounts unchanged |
| Accounts.AccountService.Delete | express-login-api/app.js:135-158 | 401 / 500 with no change for the token checks; 404 with no change if the subject is absent; else 200 and exactly the subject's account removed |
| Accounts.LoginTokenNamesAccount | express-login-api/app.js:52-63 | the token of a successful login verifies, for its whole lifetime, to the id of the account with that username, whose hash the password matches |
| Accounts.LoginThenGetUser | express-login-api/app.test.js:111-127 | /getuser with a token from /login answers 200 with the username logged in with |
| Accounts.RegisterThenLogin | express-login-api/app.test.js:70-81 | after a successful registration the unique index still holds and logging in with the same pair answers 200 with a token for the new id |
| Accounts.PasswordChangeLogin | express-login-api/app.js:121-123 | after a password-only update the username is kept, the new password logs in and the old one gets 401 |
| Accounts.TokenOutlivesAccount | express-login-api/app.test.js:147-166 | once the token's subject is gone, /getuser answers 404 (not 500) until the token expires |
| Accounts.ExpiredTokenRejected | express-login-api/app.js:62 | after 86400 seconds a token is refused with 500, whether or not its account exists |
| Scenarios.AliceLifecycle | express-login-api/app.test.js:147-166 | register, duplicate register, login, getuser, delete, getuser, delete answer 201, 409, 200, 200 (with the username), 200, 404, 404 |
| Scenarios.UpdateInSteps | express-login-api/app.test.js:171-199 | username-only, password-only and combined updates all answer 200; the profile then shows the last username; the last password logs in and the earlier one gets 401 |
| Scenarios.DeleteTwice | express-login-api/app.test.js:261-280 | delete is not idempotent: after a 200 the same request answers 404, and two 200s never happen |
| Scenarios.ForgedTokenRejected | express-login-api/app.test.js:138-145 | the string "invalidtoken" is refused with 500 |

## Left out

- Express routing, JSON body parsing, the root route, the Swagger documentation and `app.listen` (app.js:3-22, 161-164): I/O plumbing.
- dotenv and the `JWT_KEY` / `SERVER` environment reads: configuration. The secret is the constant `AccountService.key`.
- The Mongoose connection. Only the schema's meaning is kept: a required, unique username (the `Valid()` invariant) and a required password hash.
- bcryptjs internals (salt generation, the cost-8 key schedule): `Hash`/`Matches` keep only the match-exactly-the-hashed-password property. The salt is a parameter.
- jsonwebtoken internals: the JSON header and payload, base64url encoding, the `iat` claim and HMAC-SHA256. `Mac` is a fixed arithmetic stand-in, and nothing is proved about unforgeability. It does not tell keys apart either: a token signed under one key also verifies under a key that differs by a multiple of its modulus.
- Bcrypt.Matches: bcrypt reads only the first 72 bytes of a password, so compareSync (app.js:57) also accepts a longer password whose first 72 bytes match the hashed one. The model treats the hash as exact. Accounts.PasswordChangeLogin and Scenarios.UpdateInSteps therefore promise 401 for the old password even where bcrypt would accept it because the two passwords share their first 72 bytes.
- Jwt.Verify: the distinct jsonwebtoken errors (malformed, bad signature, expired) are one `None`, because the service answers all of them with 500.
- The generic `catch` paths that answer 500 on unexpected store failures, the error payloads, the messages and `console` logging: they depend on the store failing. The one store rejection modelled is the unique index refusing a rename in `/update`.
- Accounts.Login: a missing `username` or `password` in the `/login` body is not modelled. Its outcome depends on how Mongoose treats an undefined filter value and on bcryptjs throwing for a non-string argument (which the catch turns into 500). The model takes both fields as strings.
- Non-string JSON values in request bodies (numbers, booleans): fields are modelled as optional strings.
- The race between `findOne` and `save` in `/register`: the model is sequential.
- Mongo ObjectIds are natural numbers from a counter that never reuses a value, so a deleted account's id is never handed out again.
