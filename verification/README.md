# Authentication and tenancy decisions of a Next.js SaaS template, in Dafny

This project models the server-side decision logic of the template's API route
handlers: how a session token is read from the `Authorization` header and verified,
how it is issued at login and registration, and how the product, profile and "me"
routes decide, per request, what status to answer and what to change in the
database.

Each route handler is a pure function from the request, the store and an
environment to an `Outcome`: a response (status and JSON body) together with the
store it leaves behind, or an exception that escapes the handler.

- **Store** (`Store.dfy`). The tables are `user`, `workspace`, `workspace_user` and
  `product`. Each is a sequence of rows in insertion order, and `.limit(1)` is
  modelled as taking the first matching row in that order. `.single()` succeeds only when exactly one row matches; zero or
  several rows give `PGRST116`. New rows get their id from a counter per table.
  `WellFormed` says that ids are distinct, ids are below their counter, and every
  reference points at an id that has been handed out. `UniqueEmails` says no two users
  share an email.
- **Environment** (`Http.Env`). It holds the `JWT_SECRET` setting, the current time in
  seconds, and the set of queries that fail with a transport or database error. A
  failing query has no effect on the store.
- **Token oracle** (`Jwt.dfy`, `Codec.dfy`). Tokens are the three dot-separated
  segments of a compact JSON Web Token. The segments use a reversible hexadecimal
  encoding instead of base64url, and the signature is a keyed digest instead of
  HMAC-SHA256. The model proves the two facts the handlers rely on. First, a signed
  token verifies to its payload while `now < iat + 86400` and fails as expired after
  that. Second, a token never contains a space.
- **Password oracle** (`Password.dfy`). It models bcrypt's `compare` and `hash`, with
  the property `compare(pw, hash(pw))`.
- **Routes** (`AuthUtils.dfy`, `Login.dfy`, `Register.dfy`, `Products.dfy`,
  `ProfileUpdate.dfy`, `Me.dfy`). There is one module per route file, except that `Me`
  covers both `/api/me` and `/api/me/workspace`. `Flows.dfy`
  holds properties that span several requests.

Request bodies that fail JSON parsing or the schema check are `None`. The schemas
themselves are not part of this model.

The model keeps these behaviours of the code as written:

- The scheme word of the header is never checked.
- The signing key falls back to `"your-secret-key"`, and also does so when
  `JWT_SECRET` is the empty string.
- Registration creates no owner membership row. A failed workspace insert still
  answers 201.
- No role is consulted anywhere.
- The profile route answers a bad token with 500, and the "me" routes do not answer it
  at all.
- Error bodies use the key `error`, except in the profile route, which uses `message`.

## Model

| member | source | states |
|---|---|---|
| `AuthUtils.SigningKey` | src/app/api/_utils.ts:11-21 | The key is never empty. It is `JWT_SECRET` when that is set and non-empty, and the literal `your-secret-key` exactly when the setting is unset, empty or that literal. Sign and verify both use it. |
| `AuthUtils.BearerToken` | src/app/api/_utils.ts:6-9 | A token is extracted only from a present header that contains a space. The token is non-empty and space-free. |
| `AuthUtils.SchemeIsNotChecked` | src/app/api/_utils.ts:6 | For any space-free scheme word, `scheme + " " + token` yields `token`, with or without further space-separated text. `"Token abc"` yields `abc` just as `"Bearer abc"` does. |
| `AuthUtils.NoTokenCases` | src/app/api/_utils.ts:6-9 | A missing header, a header without a space, and a header whose second word is empty (a double space) all give no token. |
| `AuthUtils.DecodeAuthToken` | src/app/api/_utils.ts:5-16 | The result is `null` exactly when no token is extracted. Otherwise it is exactly what verification of the extracted token under the signing key yields: its claims when accepted, its error as the thrown exception. A verified result is unexpired. A result is verified or expired exactly when the token is well formed and signed with the signing key. |
| `AuthUtils.CreateAuthToken` | src/app/api/_utils.ts:18-22 | The token is non-empty and space-free. At its issue time it verifies under the signing key to exactly the payload, with `exp = iat + 86400`. |
| `AuthUtils.DecodeIssued` | src/app/api/_utils.ts:5-22 | A token issued for `p`, sent as `Bearer <token>`, decodes to `p`'s claims strictly before one day after issue. From then on it throws an expiry error. |
| `AuthUtils.CreateThenDecode` | src/app/api/_utils.ts:5-22 | Round trip: decoding `"Bearer " + createAuthToken(p)` yields `p` before expiry and an expiry error after it. |
| `Jwt.Sign` | src/app/api/_utils.ts:19-21 | A signed token contains no space. |
| `Jwt.Verify` | src/app/api/_utils.ts:11-14 | An accepted result is exactly the claims decoded from the token's own middle segment. It implies a valid signature under the given key and `now < exp`. `Malformed` comes exactly when the token lacks three segments, the HS256 header or decodable claims. The result is accepted or expired exactly when the signature is valid. An expired result has `exp <= now`. |
| `Jwt.SignThenVerify` | src/app/api/_utils.ts:11-21 | Verifying a token signed at `iat` with the same secret gives the signed payload with `exp = iat + 1 day` while `now < iat + 1 day`, and `Expired` otherwise. |
| `Jwt.VerifyAtAnotherTime` | src/app/api/_utils.ts:11-14 | Time matters to verification only through `exp`. A token accepted once is accepted with the same claims at every moment before `exp`, and is expired at every moment after. |
| `Text.Split` | src/app/api/_utils.ts:6 | JavaScript `split` on one character gives at least one piece. Joining the pieces with the separator gives back the input, and no piece contains the separator. |
| `Text.SplitJoin` | src/app/api/_utils.ts:6 | Splitting undoes joining separator-free pieces. |
| `Text.IndexOf` | src/app/api/_utils.ts:6 | The position returned holds the first occurrence of the character. The result is absent exactly when the character does not occur. |
| `Password.CompareOwnHash` | src/app/api/auth/login/route.ts:28 | A password matches the hash that registration stores for it. |
| `Store.FirstWhere` | src/app/api/auth/login/route.ts:14-18 | `.eq(...).limit(1)` returns nothing exactly when no row matches. Otherwise it returns the matching row that has no earlier match. |
| `Store.SingleQuery` | src/app/api/products/route.ts:55-59 | `.single()` fails with a non-`PGRST116` error when the query fails. Otherwise it succeeds exactly when one row matches and then returns the row every match equals; with zero or several matches it fails with `PGRST116`. |
| `Store.Where` | src/app/api/products/route.ts:17-20 | `.eq` filtering keeps every result row from the table, each one matching, and every matching table row appears in the result. |
| `Store.WhereMultiset` | src/app/api/products/route.ts:17-20 | Filtering keeps each matching row exactly as many times as the table holds it, and no other row: the result is the table's multiset restricted to the matching rows. |
| `Store.UpdateWhere` | src/app/api/auth/login/route.ts:38-41 | `.update(f).eq(...)` keeps the table's length and order. Every matching row is replaced by `f` of itself, and every other row stays as it was. |
| `Login.Lookup` | src/app/api/auth/login/route.ts:14-27 | The user checked is the first row with the submitted email, or none when no row has it. |
| `Login.Authenticate` | src/app/api/auth/login/route.ts:20-35 | A user is authenticated exactly when the lookup succeeds, finds a row, and the password matches that row's hash. |
| `Login.Stamp` | src/app/api/auth/login/route.ts:38-41 | Only `lastLoginAt` of the rows with the user's id changes, and it is set to the current time. |
| `Login.Post` | src/app/api/auth/login/route.ts:7-65 | Status is 500 exactly for an invalid body, with the catch-all login message. Status is 401 exactly for a failed lookup, an unknown email or a wrong password, always with the same message, and then the store is unchanged. On 200 the token is issued for exactly `{userId, email}` of the first matching user, with a one-day lifetime and the signing key. Only that user's `lastLoginAt` changes, and only if the unchecked update succeeds. |
| `Login.FirstMatchDecides` | src/app/api/auth/login/route.ts:14-35 | When several users share the email, only the first one's hash decides between 200 and 401. |
| `Login.PostPreservesInvariants` | src/app/api/auth/login/route.ts:38-41 | Login keeps a well-formed store well formed and unique emails unique. |
| `Register.EmailInUse` | src/app/api/auth/register/route.ts:16-22 | The duplicate check reports a duplicate exactly when the query succeeds and some user has the email. A failed check reads as "no duplicate". |
| `Register.Post` | src/app/api/auth/register/route.ts:7-92 | 400 comes exactly for a detected duplicate. 500 comes exactly for an invalid body or a failed user insert. Neither changes the store. On 201, one user row is appended with the next id, the email and the password's hash. It has no name and no `lastLoginAt`, and both `createdAt` and `updatedAt` are the request time. A workspace named `name + "'s Workspace"` and owned by that id is appended exactly when its insert succeeds. Memberships and products are untouched. The token is issued for `{userId, email}` of the new row. |
| `Register.PostPreservesWellFormed` | src/app/api/auth/register/route.ts:34-64 | Registration keeps the store well formed. |
| `Register.PostKeepsEmailsUnique` | src/app/api/auth/register/route.ts:16-46 | With a working duplicate check, registration keeps emails unique. |
| `Register.FailedCheckAdmitsDuplicate` | src/app/api/auth/register/route.ts:16-27 | When the duplicate check fails, the user insert succeeds and the email is already registered, registration still answers 201 and two users share the email. |
| `Products.InWorkspace` | src/app/api/products/route.ts:17-20 | The listing holds exactly the products whose `workspaceId` matches, each as many times as the table holds it: as a multiset it is the table restricted to that workspace. |
| `Products.Get` | src/app/api/products/route.ts:9-34 | The route reads no token and never changes the store. It answers 200 exactly when the parameter is valid and the query succeeds. Then it lists that workspace's products, each as many times as the table holds it and no other row. Otherwise it answers 500 with the listing-failure message. |
| `Products.HasAccess` | src/app/api/products/route.ts:69-81 | Access is granted exactly when the membership query succeeds and exactly one `workspace_user` row matches the workspace and user. |
| `Products.Create` | src/app/api/products/route.ts:54-101 | 403 comes exactly when the user lookup fails or the membership check fails. The message is `UserNotFound` when the user is missing and `NoAccess` otherwise. 500 means the insert failed. Non-200 answers leave the store unchanged. On 200, exactly one product is appended with the next id, the input's fields and `createdUserId` = the caller, and the body is that row. |
| `Products.Post` | src/app/api/products/route.ts:36-52 | An invalid body gives 500 before the token is read. 401 comes exactly for a valid body without a verified token. Every non-200 answer leaves the store unchanged. With a valid body and a verified token, the outcome is that of `Products.Create` for the token's `userId`. A 200 therefore implies an unexpired token, an existing user, exactly one membership row, and exactly one product appended. |
| `Products.PostPreservesWellFormed` | src/app/api/products/route.ts:84-101 | A created product refers to an existing user and to a workspace the user belongs to, so the store stays well formed. |
| `Products.DuplicateMembershipForbidden` | src/app/api/products/route.ts:69-81 | Two membership rows for the same workspace and user make creation answer 403. |
| `Products.NonMemberForbidden` | src/app/api/products/route.ts:69-81 | A caller with no membership row in the target workspace gets 403 once authenticated. Whether the workspace exists is not consulted. |
| `Products.AnyRoleSuffices` | src/app/api/products/route.ts:69-81 | Changing a membership row's role changes no response. |
| `ProfileUpdate.ConflictCheck` | src/app/api/profile/update/route.ts:18-23 | The check finds a conflict exactly when the query succeeds and exactly one user other than the caller has the email. A failing check reports a non-`PGRST116` error exactly when its query failed; otherwise it reports `PGRST116`. |
| `ProfileUpdate.Apply` | src/app/api/profile/update/route.ts:40-46 | Only the caller's rows change, and only their `name` and `email`. |
| `ProfileUpdate.Update` | src/app/api/profile/update/route.ts:17-57 | 400 comes exactly when the conflict check finds exactly one other holder of the email. A 500 carries the check-failure message when the conflict check's query failed, and the update-failure message otherwise. Non-200 answers leave the store unchanged. The answer is 200 exactly when both queries succeed, the check finds no single other holder (`PGRST116` counts as no conflict) and exactly one row has the caller's id. Then the store is the name/email update and the body is that row's profile, which has no password hash. |
| `ProfileUpdate.Post` | src/app/api/profile/update/route.ts:7-15 | Every error body uses the key `message`. A missing or invalid token, or an invalid body, gives 500 with the catch-all message and leaves the store unchanged. Otherwise the outcome is that of `ProfileUpdate.Update` for the token's `userId`. |
| `ProfileUpdate.KeepOwnEmail` | src/app/api/profile/update/route.ts:18-48 | With unique ids and emails, and working queries, resubmitting one's own email succeeds. |
| `ProfileUpdate.SeveralHoldersNoConflict` | src/app/api/profile/update/route.ts:18-37 | An email held by two or more other users is not reported as a conflict. |
| `ProfileUpdate.PostPreservesWellFormed` | src/app/api/profile/update/route.ts:40-48 | The update keeps the store well formed. |
| `ProfileUpdate.PostKeepsEmailsUnique` | src/app/api/profile/update/route.ts:18-48 | When emails are unique, they stay unique after the update. |
| `Me.GetMe` | src/app/api/me/route.ts:5-20 | The store never changes. The route answers exactly when the token verifies; otherwise the exception escapes. The answer is 200 with `Me.MeData` for the token's `userId`. |
| `Me.MeData` | src/app/api/me/route.ts:9-19 | The data is either a row that every user row with the caller's id equals, or `null`. It is `null` exactly when the query failed or did not find exactly one row. |
| `Me.MeReturnsCallerRow` | src/app/api/me/route.ts:9-19 | With unique ids, the caller's whole row is returned, password hash included. |
| `Me.GetWorkspace` | src/app/api/me/workspace/route.ts:5-20 | The store never changes. The route answers exactly when the token verifies. The answer is 200 with `Me.WorkspaceData` for the token's `userId`. |
| `Me.WorkspaceData` | src/app/api/me/workspace/route.ts:9-19 | The data is either a workspace whose owner column is the caller and which every such workspace equals, or `null`. It is `null` exactly when the query failed or the caller does not own exactly one workspace. |
| `Me.OwnedReturned` | src/app/api/me/workspace/route.ts:9-19 | A caller who owns exactly one workspace gets that workspace. |
| `Me.SeveralOwnedIsNull` | src/app/api/me/workspace/route.ts:9-17 | Owning two workspaces gives `null`. |
| `Me.NoneOwnedIsNull` | src/app/api/me/workspace/route.ts:9-17 | Owning none gives `null`, whatever the caller's memberships. |
| `Flows.RegisterThenLogin` | src/app/api/auth/register/route.ts:34-46 | A user registered with a fresh email and a working user insert can log in with the same email and password, provided the login lookup works. |
| `Flows.NewUserCannotCreateProducts` | src/app/api/auth/register/route.ts:34-64 | Registration writes no membership row. So the new user, using their token within its lifetime and under the same `JWT_SECRET`, gets 403 when creating a product in any workspace, their home workspace included. |
| `Flows.HomeWorkspaceAfterRegister` | src/app/api/auth/register/route.ts:57-64 | After a successful workspace insert, the new user's `/api/me/workspace`, queried within the token's lifetime, under the same `JWT_SECRET` and with a working lookup, is the workspace named after them. |
| `Flows.UserWithoutWorkspace` | src/app/api/auth/register/route.ts:66-84 | After a failed workspace insert, registration still answers 201. The new user's `/api/me/workspace`, queried within the token's lifetime and under the same `JWT_SECRET`, is `null`. |

## Left out

- The cryptography of `jsonwebtoken` and `bcrypt` is left out. Tokens use a reversible hexadecimal encoding and a 64-bit keyed digest, so signature forgery and secret guessing are outside the model. The bcrypt salt (and the `passwordSalt` column) is not modelled, so hashing depends on the password alone.
- Token payloads are always `{userId, email}`. A correctly signed token with another payload shape reads as malformed, so a verified token whose payload lacks `userId` is not modelled.
- The algorithm header is checked only for equality with the HS256 header. The `nbf`, `aud`, `iss` and clock-tolerance options are not used by the source.
- `Headers.get` trims leading and trailing whitespace from the header value. The header parameter is the value after that trimming.
- The Zod schemas (`loginPayloadSchema`, `registerPayloadSchema`, `createProductSchema`, `getProductsSchema`, `UpdateProfileSchema`) are not part of this model. A body or parameter is either valid with the modelled fields or `None`.
- Supabase transport is reduced to a per-query failure flag, and each handler runs as one atomic step. Concurrent requests, such as two registrations racing past the duplicate check, are not modelled.
- Row order is fixed to insertion order. The login lookup and the registration duplicate check use `.limit(1)` without `.order()`, so the database may return any matching row. `Store.FirstWhere`, `Login.Lookup` and `Login.FirstMatchDecides` state "the first matching row" under that fixed order only.
- An `update(...).select(...).single()` that matches no row or several rows is modelled as failing without a change. Under `WellFormed` only zero or one row can match.
- Timestamps are whole seconds, and ISO formatting is not modelled. `createdAt` and `updatedAt` come from the request's clock, and the profile update does not touch `updatedAt`.
- A product's `price` is a JavaScript number in the source and an integer here. No decision in the modelled routes depends on its value.
- When an exception escapes `/api/me` or `/api/me/workspace`, the result is `Unhandled`. The framework's generic error page is not modelled.
- The UI pages, the cookie and HTTP client wrappers, and the other API routes (workspace, workspace users, dashboard, product by id) are not part of this model.
- Logging (`console.error`) is not modelled.
