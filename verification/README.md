# User store and authentication decisions of the coffee-degustation backend

This project is a Dafny model of the account core of a NestJS service:

- `UsersService` is the user directory. It supports create, find all, find
  by id, sparse update and remove, over a `users` table. Login also needs a
  lookup by username; src/users/users.service.ts does not define one, so
  `Users.FindByUsername` is modelled from the service's test suite.
- `AuthService` handles sign-up and login.
- `JwtAuthGuard.handleRequest` is the filter that accepts or rejects the
  outcome of bearer-token authentication.

The table is a `map<Id, User>` from primary key to `{username, email,
password}`. The database keeps usernames and emails unique. In the model this
is the invariant of the `Db.Store` subset type, so every write has to preserve
it. Every operation is a pure function of its inputs. Each write (create,
update, remove, sign-up) takes the table and returns a `Result` holding the
new table or the exception the service throws. A failed write returns no
table, which means the table is unchanged. The reads take the table and
return what the service returns: `findAll` a sequence of rows, `findOne` a
row or NotFound, the username lookup a row or null, and `login` a token or
Unauthorized. The guard does not touch the table: it maps the strategy's
`(err, user)` pair to a user or an exception.

The two collaborators are opaque function values supplied by the caller:

- bcrypt is `Crypto.Hasher` (`hash(plaintext, cost)` and `compare(plaintext, digest)`).
- The JWT service's `sign` is `Crypto.Signer`.

Only one fact about the hasher is ever assumed, and only where a lemma says
so: `Crypto.Sound`, meaning a plaintext matches its own digest at cost 10.

The database is modelled by three query functions, one per write:
`Db.Insert` is `Model.create`, `Db.Save` is `instance.save()` and
`Db.Destroy` is `instance.destroy()`. Each takes a `fault` parameter that
stands for any failure other than a unique-constraint violation. The new
row's primary key is also a parameter, since the database generates it.

Modules: `Wrappers` (Option and Result), `Crypto`, `Db`, `Exceptions` (the
thrown exceptions), `Users`, `Auth` and `Guard`.

`AuthService`'s implementation file (`src/auth/auth.service.ts`) is not part
of this model. `Auth` follows only what its test suite asserts. Where the test
suite leaves something open, the model makes a choice, listed under
"## Left out".

## Model

| member | source | states |
|---|---|---|
| `Db.Insert` | src/users/users.service.ts:24-27 | An insert succeeds exactly when there is no fault, the key is fresh and neither the username nor the email is already stored. The table after it is the old one plus the new row. A rejected insert without a fault names at least one violated column. |
| `Db.Violations` | src/users/users.service.ts:29-30 | The violated unique columns. The list is empty exactly when the key, the username and the email are all free. The first entry is "id", then "username", then "email", in that priority. |
| `Db.FreshRowKeepsUnique` | src/users/users.service.ts:24-27 | Adding a row whose key, username and email are all unused keeps usernames and emails unique. |
| `Db.Save` | src/users/users.service.ts:56 | Saving an existing row succeeds exactly when no other row holds its username or email and there is no fault. Only that row changes. |
| `Db.Destroy` | src/users/users.service.ts:63 | Deleting an existing row removes exactly that key. All other rows keep their values. |
| `Users.CreateError` | src/users/users.service.ts:28-34 | A unique-constraint error with at least one column becomes a Conflict whose message names the first column. A unique-constraint error with no column raises TypeError, as reading `errors[0].path` does. A fault is rethrown unchanged. |
| `Users.Create` | src/users/users.service.ts:21-35 | On success the stored password is `hash(dto.password, 10)`, username and email are copied as given, and only the new key is added. A fault propagates unchanged. A taken username gives the username Conflict, and a free username with a taken email gives the email Conflict. |
| `Users.CreateRecord` | src/users/users.service.ts:24-34 | The insert with the same error mapping, storing the DTO exactly as given. This is the corrected create that `Auth.SignUp` uses (see Findings). |
| `Users.FindAll` | src/users/users.service.ts:37-39 | Returns every row of the table exactly once, each with its stored columns, and nothing else. |
| `Users.FindOne` | src/users/users.service.ts:41-45 | Returns the stored row when the id is present. Otherwise fails with NotFound("User with ID <id> not found"). |
| `Users.FindByUsername` | src/users/users.service.spec.ts:142-160 | Returns null exactly when no row has that username. Otherwise returns a stored row with that username. |
| `Users.Patch` | src/users/users.service.ts:51-54 | Each field given as a non-empty string replaces its column, and the password only as its hash at cost 10. An absent or empty field leaves its column as it was. |
| `Users.Update` | src/users/users.service.ts:47-58 | An unknown id fails with NotFound. On success only the row under `id` changes, and it becomes the patched record. Save failures are rethrown as database errors, including unique-constraint ones, and never turned into a Conflict. |
| `Users.Remove` | src/users/users.service.ts:60-64 | An unknown id fails with NotFound. Otherwise, without a fault, exactly that key is deleted and all other rows are unchanged. |
| `Users.CreateThenFindOne` | src/users/users.service.ts:21-45 | After a create, the new key finds the created row, whose password is the hash. Every other key finds what it found before. |
| `Users.CreateThenRemove` | src/users/users.service.ts:21-64 | Removing a user right after creating it gives back exactly the original table. |
| `Users.CreateConflictNamesField` | src/users/users.service.ts:29-31 | Under a fresh key, a create rejected without a fault is a Conflict on "username" if the username is taken. Otherwise it is a Conflict on "email", and the email is then taken. |
| `Users.UpdateEmailOnly` | src/users/users.service.spec.ts:186-199 | Patching only the email changes only the email. Username and password hash stay bit-identical, and no other row changes. |
| `Users.UpdatePasswordRehashed` | src/users/users.service.ts:53-54 | Patching only the password stores `hash(newPassword, 10)` and keeps the username and email. |
| `Users.RemoveThenFindOne` | src/users/users.service.ts:60-64 | After a remove, the removed id is NotFound and every other id finds what it found before. |
| `Auth.SignUp` | src/auth/auth.service.spec.ts:63-81 | Composed with the corrected create `Users.CreateRecord` (see Findings). Succeeds exactly when the key is fresh and the username and email are unused. The store then gains `{username, email, hash(password, 10)}`, hashed once and never the plaintext. The token is the signer's output over `{username, sub: id}`. Conflicts name username before email, and faults propagate. |
| `Auth.SignUpAsWritten` | src/users/users.service.ts:23 | The sign-up composed with `create` as written stores `hash(hash(password, 10), 10)`. |
| `Auth.Login` | src/auth/auth.service.spec.ts:92-135 | Succeeds exactly when some stored user has the username and the password compares true against that user's stored hash. The token is then signed over that user's `{username, sub: id}`. Every failure is the same Unauthorized exception. |
| `Auth.SignUpThenLogin` | src/auth/auth.service.spec.ts:56-112 | For a sound hasher, credentials that signed up log in, and receive a token signed over the same claims `{username, sub: id}` that sign-up signed. |
| `Auth.SignUpAsWrittenLocksOut` | src/users/users.service.ts:23 | With the double hashing, the sign-up of the test scenario succeeds, but a login with the same username and password is rejected. |
| `Auth.LoginFailuresIndistinguishable` | src/auth/auth.service.spec.ts:114-135 | An unknown username and a known username with a wrong password give identical results, both the Unauthorized failure. |
| `Auth.SignUpDuplicateUsername` | src/users/users.service.ts:29-31 | Signing up an already stored username fails with the username Conflict, whatever the email. |
| `Guard.HandleRequest` | src/auth/guards/jwt-auth.guard.ts:7-12 | An upstream error is rethrown as it is, whatever the user. With no error and no user it throws Unauthorized("Unauthorized"). With no error and a user it returns that user unchanged. |
| `Guard.GuardPassesOnlyAuthenticated` | src/auth/guards/jwt-auth.guard.ts:7-12 | The guard passes exactly when there is no error and there is a user, and then it passes that same user. No path returns a missing user. |

## Findings

| source | as written | input that shows it | evidently intended | confidence | as-written member | corrected member |
|---|---|---|---|---|---|---|
| src/users/users.service.ts:23 | `AuthService.signUp` hashes the password and hands the hash to `UsersService.create` (auth.service.spec.ts:69-74). `create` then hashes that hash again before storing it. | `signUp("testuser", "password123", "test@example.com")`, then `login("testuser", "password123")`. The store holds `hash(hash(pw))`, so `compare(pw, stored)` fails and login throws Unauthorized. | The password is hashed once. users.service.spec.ts:62 expects `create` to pass the DTO to the model unchanged, and the sign-up test expects the hash to be done in `signUp`. | medium, not executed (the `AuthService` implementation is not part of this model) | `Auth.SignUpAsWritten`, `Auth.SignUpAsWrittenLocksOut` | `Users.CreateRecord`, `Auth.SignUp`, `Auth.SignUpThenLogin` |

## Left out

- bcrypt internals, salting and non-determinism: the hasher is a caller-supplied function, so two hashes of one plaintext are equal in the model. `Sound` is the only assumed property. Hash failures (the `try` around `bcrypt.hash`) are not modelled.
- JWT signing and validation, and the passport JWT strategy (`src/auth/strategies/jwt.strategy.ts` is not part of this model): the signer is a function of the claims alone. The real `sign` also stamps the issue time, so two tokens over the same claims are equal only in the model; what `Auth.SignUpThenLogin` promises is that login signs the same claims. The guard is modelled only from the point where the strategy hands it `(err, user)`.
- Truthiness in the guard: `err` is an `Option`, with `None` standing for every falsy JavaScript value. `user` is likewise `None` for every falsy value (null, undefined, or the `false` passport hands over when there is no user), because a `JwtUser` object is always truthy.
- Controllers and HTTP routing, including `ParseUUIDPipe` on ids. The login route is wrapped by the JWT guard (src/auth/auth.controller.ts:20-21), so a request without a valid token never reaches `login`. The model does not include that routing.
- Module wiring, database configuration, and the empty tastings and coffee modules.
- Read failures: only the three write queries take a `fault`. A failure of `findAll`, `findByPk` or `findOne` is not modelled.
- Timestamps (`createdAt`, `updatedAt`) and any extra DTO fields spread into the insert.
- Which unique column the database reports first is not something the service decides. The model fixes the order id, username, email. This is the tie-break under which a request colliding on both fields names the username.
- Users.FindByUsername: src/users/users.service.ts defines no `findByUsername`, although `login` calls one (auth.service.spec.ts:103). The lookup is modelled from what users.service.spec.ts:142-160 expects of it.
- Users.Update: Sequelize skips the UPDATE query when nothing changed. The model still sends every save to the database, so a patch that changes nothing can fail with a fault.
- The second `if (!user)` checks in `update` and `remove` (src/users/users.service.ts:49 and :62) can never fire, because `findOne` already throws. They have no counterpart in the model.
- Auth.Login: the test suite pins only the exception class for a rejected login. The message "Invalid credentials" is a modelling choice. The property that both failures are the same value does not depend on it.
- Auth.SignUp: the test suite does not cover a failing create. The model propagates the exception `Users.CreateRecord` (the corrected create) throws, unchanged.
- users.service.spec.ts:62 expects `create` to store the DTO unchanged, while users.service.ts:23 hashes it first. `Users.Create` follows the code. The difference is the subject of the finding above.
