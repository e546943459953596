# Authentication service: a Dafny model

This project models the request-decision layer of a small Express
authentication backend (`application/Backend/server.js`). It registers
accounts in a SQLite `users` table, logs users in and issues JSON Web Tokens,
and guards a profile lookup behind a token gate.

The model is sequential. The users table is a class, `Users.UserTable`. It holds
the rows in rowid order and the AUTOINCREMENT counter. `Register` changes the
table through `Insert`, which enforces the schema's UNIQUE and primary-key
constraints. Login, the gate and the profile lookup only read the table. Each
handler yields the HTTP status and JSON body it sends.

The two foreign libraries are abstract. bcryptjs is a `Crypto.Hasher`: a pair of
functions `hash(plaintext, salt)` and `compare(plaintext, stored)`.
jsonwebtoken is a `Crypto.Tokens`: a pair `sign(claims, secret, expiresIn, now)`
and `verify(token, secret, now)`. The caller supplies both, so no property
depends on the cryptography being sound. The inputs that are not pure logic
come in as parameters:

- the salt bcrypt draws;
- the clock readings (`now`, and the insert's CURRENT_TIMESTAMP);
- the server secret;
- whether a database statement reports an error (`lookupFault`, `insertFault`).

Modules: `Values` (Option, Result, JavaScript truthiness), `Crypto` (the
library interfaces), `Header` (`split(' ')[1]` on the authorization header),
`Users` (the table), `Server` (the handlers), `EndToEnd` (a client session
proved from the handlers' contracts).

## Model

Two definitions underlie the contracts below and carry no contract of their own:

- `Users.TableInvariant` (application/Backend/server.js:24-26) is the schema's
  invariant. Ids are positive, increase in insertion order and never exceed the
  AUTOINCREMENT counter. No two rows share a username, and no two share an email.
- `Server.LookupAllows` (application/Backend/server.js:71) says what `db.get`
  may hand the login callback. It is no row when none matches the identifier by
  username or email, and otherwise any one matching row.

| member | source | states |
|---|---|---|
| `Header.Split` | application/Backend/server.js:105 | `split(' ')` always yields at least one piece, and no piece contains the separator |
| `Header.JoinSplit` | application/Backend/server.js:105 | joining the pieces of a split with the separator gives back the original string |
| `Header.SplitJoin` | application/Backend/server.js:105 | splitting the join of separator-free pieces gives back exactly those pieces (the inverse direction) |
| `Header.ExtractToken` | application/Backend/server.js:104-106 | an extracted token comes from a present header, and is non-empty and space-free |
| `Header.SecondWordIsToken` | application/Backend/server.js:104-106 | for any space-free first word (not checked against "Bearer"), the word after the first space is the token, whether or not more words follow; an empty second word gives no token |
| `Header.NoSpaceNoToken` | application/Backend/server.js:105-106 | a header with no space has no second segment and so no token |
| `Header.TokenIsSecondWord` | application/Backend/server.js:105-106 | conversely, every extracted token is the word right after the header's first space, followed by the end or another space |
| `Users.FindById` | application/Backend/server.js:92-93 | `WHERE id = ?` returns a row of the table with that id, and returns nothing exactly when no row has that id |
| `Users.FindByIdIsUnique` | application/Backend/server.js:24 | under the table invariant the primary key names one row: looking up a row's id yields that row |
| `Users.LoginLookupMayMatchTwoRows` | application/Backend/server.js:71 | a table satisfying every constraint can hold two rows matching one login identifier (one by username, one by email), so the row login uses is not determined by the data |
| `Users.AppendKeepsInvariant` | application/Backend/server.js:24-26 | appending a row with the next id whose username and email are both unused keeps ids increasing and usernames and emails unique |
| `Users.UserTable.constructor` | application/Backend/server.js:23-31 | a freshly created table is empty, its counter is zero and it satisfies the invariant |
| `Users.UserTable.Insert` | application/Backend/server.js:23-31 | the INSERT fails, leaving rows and counter unchanged, exactly when storage fails or the username or email is taken; otherwise it appends exactly one row with id = counter + 1, greater than every earlier id, and returns that id; the invariant holds either way |
| `Server.StoredPhone` | application/Backend/server.js:54 | `phone \|\| null`: NULL is stored exactly when the phone is falsy, otherwise the phone itself |
| `Server.Register` | application/Backend/server.js:40-60 | missing field gives 400 "All required fields must be filled"; lookup error gives 500; a taken username or email gives 400 "Username or email already exists"; a failed insert gives 500 "Failed to create user"; in all of these the table is unchanged. 201 with `userId` = the new id happens exactly when none of these occurs, and then one row is appended (fresh id, `hash(password, salt)`, stored phone, timestamp) and nothing else changes. `success` is true exactly on 201. The table invariant is preserved on every path |
| `Server.LoginReply` | application/Backend/server.js:69-85 | missing username or password gives 400; a db error gives 500. 200 happens exactly when a row was found and `compare` accepts the password. Its body is then the token `sign({id, username, email}, secret, "24h")` and the row's id, username, email, fullName and phone (no password). 401 happens exactly when no row was found or `compare` refused, and is always the identical "Invalid credentials" response. `success` is true exactly on 200 |
| `Server.UnknownUserLooksLikeWrongPassword` | application/Backend/server.js:73-76 | an unknown identifier and a wrong password for a known row give the very same response |
| `Server.Login` | application/Backend/server.js:67-87 | missing fields give 400. Otherwise the reply is `LoginReply` on some row that `WHERE username = ? OR email = ?` may return, or on no row when none matches. The method has no modifies clause, so the table is never changed |
| `Server.Gate` | application/Backend/server.js:103-113 | no token gives 401 "Access token required"; a token `verify` rejects gives 403 "Invalid or expired token"; the request reaches the downstream handler exactly when `verify` accepts the token, and the handler then gets exactly the decoded claims |
| `Server.ProfileReply` | application/Backend/server.js:91-99 | a db error gives 500; without one, 404 "User not found" exactly when no row has id `claims.userId`, and 200 exactly when some row has it; a 200 body is the columns of such a row, without the password; `success` is true exactly on 200 |
| `Server.ProfileFollowsClaimedId` | application/Backend/server.js:90-97 | under the table invariant, claims whose `userId` is a row's id get exactly that row's current profile, whatever username and email the claims carry: the claims are trusted and only the id is looked up |
| `Server.GetProfile` | application/Backend/server.js:90-113 | the profile route is the gate followed by the handler: 401 without token, 403 on failed verification, otherwise the profile reply for the verified claims |
| `Server.LoginTokenOpensProfile` | application/Backend/server.js:78-113 | a token signed at login for a row of a valid table, when `verify` accepts it and it is presented after any first word, returns that row's profile |
| `EndToEnd.AliceSession` | application/Backend/server.js:40-113 | register alice on a fresh table gives 201 with id 1; registering the same username again gives the duplicate error; logging in gives 200 with her public fields; profile with `Bearer <token>` gives her fullName and email; profile without a header gives 401 |

## Left out

- bcrypt internals.
  - Not modelled: the cost factor 10, salt generation and the comparison algorithm.
  - `hash` and `compare` are arbitrary functions.
  - `compare(p, hash(p, salt))` is not a theorem. `EndToEnd.AliceSession` takes it as a precondition for its one password.
- jsonwebtoken internals.
  - Not modelled: signing, signature checking and expiry arithmetic.
  - The decoded payload is modelled as the signed claim set. The `iat` and `exp` fields the library adds are not represented.
  - Tampering and expiry cannot be shown on abstract functions.
  - `VerifyError` keeps the two failure kinds, which the gate reports identically.
- A verified payload that lacks `userId` or carries a non-integer `userId` is not representable: `Claims.userId` is an `int`.
- SQLite I/O, callbacks and async/await become synchronous calls. A database error is a boolean input to each handler.
- Which of several matching rows `db.get` returns is left open (`Login` accepts any matching row).
- The race between the duplicate check and the insert is concurrency and is not modelled. `Insert` still rejects a constraint-violating row on its own.
- Request fields are absent or strings. JSON numbers, booleans and objects are not modelled, nor their truthiness or SQLite's type affinity. The NOT NULL columns are typed as non-null strings.
- A throwing or rejecting `bcrypt.hash` is not modelled: `hash` is total. In the code the hash is awaited inside the `db.get` callback, after the `try` block has returned, so the `catch` never sees such a failure and the request is left unanswered. The `catch` (500 "Server error") guards only the destructuring of the body and the call to `db.get`, neither of which fails in this model.
- The gate's assignment to `req.user` and its call to `next()` are modelled as the `Admitted(claims)` result handed to the profile handler, not as mutation of a request object.
- Not modelled, as plumbing:
  - Express routing, CORS and JSON body parsing;
  - the health route;
  - `listen`;
  - the SIGINT shutdown;
  - the commented-out static serving.
- The hard-coded secret is configuration. It is a parameter here.
- Facts of the code the model keeps:
  - The gate does not check that the first word is "Bearer".
  - Expired and invalid tokens get the same 403.
  - Username and email each carry a separate UNIQUE constraint (server.js:25-26).
