# auth-4 session-token lifecycle, in Dafny

This project models the core of a small authentication service written in Rust with actix-web, sqlx, jsonwebtoken and argon2. It covers:

- the account record (`User`) and its two states: no session, or an active session that holds the hash of the one refresh token that may be used next;
- the table of accounts;
- the six HTTP handlers (`index`, `create`, `destroy`, `create_session`, `update_session`, `destroy_session`), which read a record, change it in place and write it back;
- the Authorization-header parser and the two token decoders built on it;
- claim construction and which secret signs each token class;
- the error taxonomy with its status table and conversions.

Modules, one per source file:

| module | file | what it holds |
|---|---|---|
| `Errors` | `errors.dfy` | `errors::Error`, `error_response`, the `From` conversions. The `ValidationErrors` conversion is a method with a loop, as in the source. |
| `PasswordHashing` | `password_hashing.dfy` | An ideal stand-in for the argon2 wrapper. A hash string records its salt and a digest, and `Matches(p, h)` holds exactly when `h` was made from `p`. The digest is the secret itself, so collision freedom holds by construction. |
| `Jwt` | `jwt.dfy` | Claims and token generation. jsonwebtoken's `encode`/`decode` become a stand-in codec: a token is a function of (secret, claims), and decoding under a secret accepts exactly the unexpired tokens encoded under that secret. Like base64url, the stand-in writes every field as header-safe text: each character becomes the six hex digits of its code point. |
| `JwtExtractor` | `jwt_extractor.dfy` | The `^Bearer\s(.*)$` parser and the `BearerToken`, `AccessTokenDecoded` and `RefreshTokenDecoded` extractors, as pure functions. |
| `UserModel` | `user_model.dfy` | The parts of the user model, listed below. |
| `UserController` | `user_controller.dfy` | The handlers, as methods that change a `UserTable`. |

`UserModel` holds:

- the validation patterns;
- `UserRow`, the persisted record, with the two credential checks;
- `User::create`;
- `class User`, whose `IssueTokens` and `RevokeTokens` update its fields in place;
- `class UserTable`, a `map<string, UserRow>` keyed by id, with `find`, `find_by_name`, `store`, `delete` and `delete_by_id`.

Parameters stand in for what the source reads from the outside world:

- the clock: `now`, in nanoseconds since the epoch;
- fresh ids;
- argon2 salts;
- the two token secrets.

`DefaultSecrets` records the configured defaults. Both are `"secret"`.

Where the code disagrees with the service's written design, the model follows the code:

- **Token classes share a secret by default.** The design says an access token must never be accepted as a refresh token. In the code, decoding depends only on the secret, and both secrets default to `"secret"`. With equal secrets, each class passes as the other: an access token passes as a refresh token (`Jwt.AccessTokenPassesAsRefreshWhenSecretsEqual`), and a refresh token passes as an access token for its whole two weeks (`Jwt.RefreshTokenPassesAsAccessWhenSecretsEqual`), so the 30-minute access lifetime bounds nothing. With distinct secrets the classes stay apart (`Jwt.TokenClassesSeparateWhenSecretsDiffer`).
- **Password length.** The source's own error messages promise 8-30-character passwords and 3-15-character names (`src/model/user.rs:35,48`). The code uses unanchored `is_match`, so it accepts any input that contains a long enough run of allowed characters. The maximum is never enforced, and other characters may surround the run (`UserModel.IsMatchIffRun`, `UserModel.CreateExamples`).
- **Refresh for an unknown user.** The design treats a refresh for a missing account as an authentication failure. The code answers `404` through sqlx's `RowNotFound`.
- **Login failures are told apart.** The design wants an unknown name and a wrong password to look the same to callers. The code answers both with 401, but builds the two errors separately: `new_unauthorized()` for an unknown name, and `NameAndPasswordUnMatch` ("Name and password do not match") for a known name with a wrong password (`UserController.CreateSession`). The body of `new_unauthorized()` is not known, so whether callers can tell the two apart is not known either.
- **Validation order.** The design lists the name first, before the password. The code checks the password first, hashes it, and validates the name last.
- **Error bodies.** The password rejection body uses the key `"errors"`. The name rejection, built by the `ValidationErrors` conversion, uses `"error"`. Both are kept.
- **Claims.** The claims carry only `sub`, `exp` and `user_id`. There is no name and no nonce, so two issues in the same second give identical tokens (`Jwt.GenerateTokensDeterministic`).

The code calls the claims' user id `uid` and an error type `MyError`. Here they are `Claims.userId` and `Errors.Error`.

## Model

| member | source | states |
|---|---|---|
| Errors.ErrorResponse | src/lib/errors.rs:32-46 | Status 401/403/404/422/500 exactly for Unauthorized/Forbidden/NotFound/UnprocessableEntity/InternalServerError. The first four pass their body through unchanged. The catch-all always answers the same fixed body. |
| Errors.ErrorResponseStatusDeterminesKind | src/lib/errors.rs:32-46 | Two errors with the same status are of the same kind. |
| Errors.FromJwtError | src/lib/errors.rs:48-52 | Every JWT failure, whatever its kind, becomes Unauthorized with the one fixed message. |
| Errors.FromSqlxError | src/lib/errors.rs:70-77 | NotFound exactly for `RowNotFound`, with the "Entity not found" body. Every other database fault is InternalServerError. |
| Errors.FromUserError | src/lib/errors.rs:79-90 | Both credential mismatches are Unauthorized, each with its own message. |
| Errors.MessagesJson | src/lib/errors.rs:59-62 | One JSON entry per validation error, in order, each that error's message (null when absent). |
| Errors.FromValidationErrors | src/lib/errors.rs:54-68 | The result is UnprocessableEntity with body `{"error": {...}}`. The inner object has exactly one key per failing field, and each key holds the list of that field's messages. |
| PasswordHashing.Hash | src/lib/password_hashing.rs:8-14 | The hash matches its own secret and no other, and records the salt it was made with. |
| PasswordHashing.Verify | src/lib/password_hashing.rs:16-19 | Succeeds exactly when the secret matches the hash string. |
| PasswordHashing.MatchesInjective | src/lib/password_hashing.rs:16-19 | One hash string matches at most one secret. |
| Jwt.Timestamp | src/lib/jwt.rs:30 | `timestamp()` is the whole second the instant falls in, rounded down, also before 1970. |
| Jwt.TimestampShift | src/lib/jwt.rs:30 | Adding whole seconds to an instant before taking its timestamp is adding them to the timestamp. |
| Jwt.HexValueOfHex | src/lib/jwt.rs:32-46 | The hex digits written for a code point read back as that code point. This is the stand-in codec's character encoding. |
| Jwt.ParseFrame | src/lib/jwt.rs:51-58 | A parsed field, framed again and followed by the rest, gives back the input, and the rest is shorter. This is the stand-in codec's reader. |
| Jwt.ParseFrameOfFrame | src/lib/jwt.rs:51-58 | Reading a framed field back yields the field and exactly what followed it. |
| Jwt.SplitFrames | src/lib/jwt.rs:51-58 | A token split into fields is exactly those fields framed one after another. |
| Jwt.SplitFramesOfFrames | src/lib/jwt.rs:51-58 | Splitting framed fields gives back the fields. |
| Jwt.DigitsValueOfNat | src/lib/jwt.rs:15-20 | The digits written for a natural number read back as that number. |
| Jwt.DecimalToInt | src/lib/jwt.rs:15-20 | An accepted expiry string is the canonical decimal form of the value read. |
| Jwt.DecimalToIntOfInt | src/lib/jwt.rs:15-20 | Every integer expiry reads back from its decimal form. |
| Jwt.Encode | src/lib/jwt.rs:32-46 | Every token, whatever its secret and claims, consists only of hex digits and '.', as a base64url token consists only of header-safe characters. |
| Jwt.Decode | src/lib/jwt.rs:51-67 | An accepted token is the encoding, under this secret, of the claims returned, and those claims have not expired beyond the leeway. |
| Jwt.DecodeEncode | src/lib/jwt.rs:29-67 | Round trip: a token decodes under its own secret to its claims until `exp` falls more than the leeway behind `now`. After that it is ExpiredSignature. |
| Jwt.DecodeWrongSecret | src/lib/jwt.rs:51-67 | A token never decodes under a secret other than its signer's (InvalidSignature). |
| Jwt.EncodeInjective | src/lib/jwt.rs:29-49 | Equal tokens have equal secrets and equal claims. |
| Jwt.AccessClaims | src/lib/jwt.rs:30-31 | `sub == user_id == auth.user_id`, and `exp` is the issue second plus 1800. |
| Jwt.RefreshClaims | src/lib/jwt.rs:39-40 | `sub == user_id == auth.user_id`, and `exp` is the issue second plus 1209600. |
| Jwt.GenerateTokens | src/lib/jwt.rs:29-49 | At the instant of issue, the access token decodes under the access secret to the access claims, and the refresh token decodes under the refresh secret to the refresh claims. Each class is signed with its own class's secret. |
| Jwt.RefreshOutlivesAccess | src/lib/jwt.rs:30-40 | Issued at one instant, the refresh expiry exceeds the access expiry by 1209600 - 1800 seconds. |
| Jwt.DecodeAccessToken | src/lib/jwt.rs:51-58 | An accepted token was encoded under the access secret, and its expiry is within the default 60-second leeway of `now`. |
| Jwt.DecodeRefreshToken | src/lib/jwt.rs:60-67 | The same, under the refresh secret. |
| Jwt.GeneratedAccessTokenDecodes | src/lib/jwt.rs:29-58 | A generated access token, which is signed with the access secret, decodes under that secret to its claims for 30 minutes plus the leeway. |
| Jwt.GeneratedRefreshTokenDecodes | src/lib/jwt.rs:39-49 | A generated refresh token, which is signed with the refresh secret, decodes under that secret to its claims for two weeks plus the leeway. |
| Jwt.GeneratedAccessTokenExpires | src/lib/jwt.rs:30-58 | After 30 minutes plus the leeway, a generated access token is refused as ExpiredSignature. |
| Jwt.AccessTokenPassesAsRefreshWhenSecretsEqual | src/lib/jwt.rs:51-67 | With equal secrets (the default), an unexpired access token decodes as a refresh token. |
| Jwt.RefreshTokenPassesAsAccessWhenSecretsEqual | src/lib/jwt.rs:39-58 | With equal secrets (the default), a refresh token decodes as an access token to its own claims for two weeks plus the leeway. |
| Jwt.TokenClassesSeparateWhenSecretsDiffer | src/lib/jwt.rs:29-67 | With distinct secrets, neither token class decodes as the other. |
| Jwt.GenerateTokensDeterministic | src/lib/jwt.rs:16-49 | Issues in the same second give the same pair. Two refresh tokens for one user are equal exactly when issued in the same second. |
| JwtExtractor.GetHeader | src/controller/lib/jwt_extractor.rs:96-97 | Absent exactly when the request has no Authorization header. Otherwise it is the first value. |
| JwtExtractor.ToStr | src/controller/lib/jwt_extractor.rs:98 | Succeeds exactly when every byte is visible ASCII or a tab, and then gives the same characters. |
| JwtExtractor.MatchBearer | src/controller/lib/jwt_extractor.rs:12 | Matches exactly when the text opens with "Bearer", then one whitespace character, then a rest with no line feed. The capture is that rest. |
| JwtExtractor.MatchBearerOfScheme | src/controller/lib/jwt_extractor.rs:12 | "Bearer", one whitespace character and any rest without a line feed yield the rest verbatim. |
| JwtExtractor.MatchBearerExamples | src/controller/lib/jwt_extractor.rs:12 | Accepted: "Bearer " gives the empty string, "Bearer  x" gives " x", "Bearer\tx" gives "x". Refused, because the scheme is case-sensitive and anchored: "bearer x", " Bearer x", "Token x", "Bearer", "Bearerx". |
| JwtExtractor.ExtractBearerToken | src/controller/lib/jwt_extractor.rs:95-106 | Succeeds exactly when the first header value is visible ASCII and matches the pattern. The result is then the capture. A missing header and every other failure are InvalidToken. |
| JwtExtractor.BearerToken | src/controller/lib/jwt_extractor.rs:23-35 | The extracted token, or a 401 rejection for any extraction failure. |
| JwtExtractor.AccessTokenDecoded | src/controller/lib/jwt_extractor.rs:51-64 | Succeeds exactly when extraction succeeds and the token decodes under the access secret. The token is then the encoding of the claims returned. Every failure is the same Unauthorized. |
| JwtExtractor.RefreshTokenDecoded | src/controller/lib/jwt_extractor.rs:80-93 | The same, under the refresh secret. |
| JwtExtractor.ExtractFromBearerRequest | src/controller/lib/jwt_extractor.rs:95-106 | A request whose header is "Bearer " and a printable token yields that token. |
| JwtExtractor.IntoAuthOfIssuedClaims | src/controller/lib/jwt_extractor.rs:39-49 | `into_auth` of claims issued to a user, access or refresh, gives back that user. |
| JwtExtractor.EncodePrintable | src/controller/lib/jwt_extractor.rs:95-106 | Every token is printable ASCII, so it passes `to_str` and the `.*` capture unchanged, whatever the secret. |
| JwtExtractor.BearerAccessTokenDecodes | src/controller/lib/jwt_extractor.rs:51-64 | A request whose bearer token decodes under the access secret yields exactly that token's claims. |
| JwtExtractor.BearerRefreshTokenDecodes | src/controller/lib/jwt_extractor.rs:80-93 | The same under the refresh secret. |
| JwtExtractor.AccessTokenAuthenticates | src/controller/lib/jwt_extractor.rs:39-64 | A request bearing a freshly issued access token authenticates (`into_auth`) as the user it was issued to, until it expires, under any secrets. |
| JwtExtractor.RefreshTokenAuthenticates | src/controller/lib/jwt_extractor.rs:68-93 | The same for a refresh token, under the refresh secret. |
| UserModel.NameMatches | src/model/user.rs:17 | `RE_NAME.is_match` holds exactly when the name holds 3 allowed characters in a row, at any length and with anything around them. |
| UserModel.PasswordMatches | src/model/user.rs:18 | `RE_PASSWORD.is_match` holds exactly when the password holds 8 allowed characters in a row, at any length and with anything around them. |
| UserModel.IsMatchIffRun | src/model/user.rs:17-18 | The unanchored pattern `[class]{min,max}` matches exactly when the text holds a run of `min` allowed characters. The maximum plays no part. |
| UserModel.UserRow.VerifyPassword | src/model/user.rs:75-79 | Succeeds exactly when the password matches the stored hash. Otherwise it fails with "Name and password do not match". |
| UserModel.UserRow.VerifyRefreshToken | src/model/user.rs:81-90 | Succeeds exactly when a session exists and the token matches its hash. Otherwise it fails with "Refresh token do not match". With no session, every token fails. |
| UserModel.Validate | src/model/user.rs:30-42 | No errors exactly when the name pattern matches. Otherwise the only failing field is "name". |
| UserModel.Create | src/model/user.rs:45-59 | Fails exactly when the password has no run of 8 allowed characters or the name has no run of 3. A password failure gives the 422 `{"errors": {"password": [...]}}` without looking at the name. A name failure gives the 422 `{"error": {"name": [...]}}`. On success the record has the given id and name, no session, `created_at == updated_at == now`, and a hash matching the password. |
| UserModel.CreateExamples | src/model/user.rs:17-18 | A 40-character password, and one surrounded by spaces and tildes, are accepted. "pass word" and a 2-letter name are rejected with their own bodies. |
| UserModel.User.constructor | src/model/user.rs:30-42 | The struct holds exactly the loaded row. |
| UserModel.User.IssueTokens | src/model/user.rs:61-68 | Returns the pair generated for this user's id. Only the refresh hash and `updated_at` change. Afterwards exactly the new refresh token passes `verify_refresh_token`. |
| UserModel.User.RevokeTokens | src/model/user.rs:70-73 | Clears the refresh hash and sets `updated_at`, and nothing else changes. Afterwards every token fails `verify_refresh_token`. |
| UserModel.RevokeTwice | src/model/user.rs:70-73 | Revoking twice leaves the record as one revoke would, with the later timestamp. |
| UserModel.UserTable.constructor | src/model/user.rs:92-176 | The table starts empty, with every row under its own id. |
| UserModel.UserTable.Find | src/model/user.rs:92-104 | Succeeds exactly when the id has a row, and returns a fresh struct holding that row. Otherwise the error is the 404 of `RowNotFound`. |
| UserModel.UserTable.FindByName | src/model/user.rs:106-121 | None exactly when no row has the name. Otherwise a fresh struct holding one stored row with that name. |
| UserModel.UserTable.Store | src/model/user.rs:123-145 | Insert, or update on a duplicate key, with the id as the only key: the row under the struct's id becomes its contents, and no other row changes. |
| UserModel.UserTable.Delete | src/model/user.rs:147-159 | Removes this user's row, and no other row changes. |
| UserModel.UserTable.DeleteById | src/model/user.rs:161-176 | Removes the row with this id, if any, and no other row changes. |
| UserController.Index | src/controller/user.rs:26-29 | Answers exactly when the access token decodes. The identity returned is that token's user id. Every failure is the extractor's JWT Unauthorized, "An issue was found with the token provided". The table is not touched. |
| UserController.IndexAnswersIssuedIdentity | src/controller/user.rs:26-29 | A client holding a fresh access token is told its own identity. |
| UserController.Create | src/controller/user.rs:37-43 | When `User::create` fails, its error is returned and the table is unchanged. Otherwise the new row, with a session, is stored under the new id. The password then verifies, and exactly the returned refresh token passes. |
| UserController.Destroy | src/controller/user.rs:45-53 | A token failure changes nothing. Otherwise only the authenticated id's row is removed, and a missing row still succeeds. |
| UserController.CreateSession | src/controller/user.rs:61-70 | An unknown name gives `new_unauthorized`. When the name is known, every failure is "Name and password do not match", and a wrong password for every row with that name fails. On any failure the table is unchanged. On success a row with that name and password is rewritten with the new session, and nothing else changes. |
| UserController.UpdateSession | src/controller/user.rs:72-84 | The errors, in order: no bearer token (401); a token that does not decode as a refresh token (401); no row for its user (404); a token that does not match the stored hash (401). On success the stored hash changes to the hash of the new refresh token, and only that token passes. Failures change nothing, and no row gains a session. |
| UserController.DestroySession | src/controller/user.rs:86-96 | A token failure gives 401, and a missing row gives 404; neither changes anything. Otherwise that user's session is cleared and `updated_at` set, every refresh token then fails, and no row gains a session. |
| UserController.RotationAcceptsOnlyNewToken | src/controller/user.rs:80-83 | After rotation, the presented token passes again only if it equals the newly issued one. |
| UserController.ReplayAfterRotation | src/controller/user.rs:80-83 | A rotated-out refresh token still passes exactly when the rotation fell in the same second as its issue, because the claims carry no nonce. |
| UserController.LogoutRefusesEveryToken | src/controller/user.rs:91-95 | After logout the row refuses every refresh token with "Refresh token do not match". |
| UserController.LogoutThenRefresh | src/controller/user.rs:86-96 | After a successful logout, a refresh for the same user fails with "Refresh token do not match", whatever token it presents. |

## Left out

- Argon2 itself (`src/lib/password_hashing.rs`) is replaced by an ideal, collision-free hash. Salts come from OS randomness in the source and are parameters here.
- One-wayness of the hash is not modelled. The stand-in digest is the password or refresh token itself, so the model cannot say that reading the users table reveals no usable session token or password.
- `verify` panics on a malformed stored hash. Stored hashes here always come from `Hash`, so that case cannot occur.
- jsonwebtoken internals are left out: HMAC-SHA256, base64url and the JSON header and payload. The stand-in codec writes the secret inside the token, so the model says nothing about keeping the secret. It only covers which secret a token decodes under.
- The decoder's other error kinds are never produced by the stand-in: InvalidAlgorithm, Base64, Utf8, and missing claims. They would map to the same 401.
- jsonwebtoken reads `exp` as an unsigned number. The stand-in accepts any integer, because every expiry the service issues is after 1970.
- Reading configuration from the environment (`src/lib/config.rs`) is left out. The secrets are parameters, and `DefaultSecrets` records the defaults.
- `src/main.rs`, `src/lib/cors.rs` and the route registration `init` are server bootstrap and framework configuration.
- The plumbing is left out: SQL text, sqlx executors (MySQL in the model, `PgPool` in the handlers), async/await, and actix extractor ordering. The table is a map keyed by id, and the handlers are methods on it.
- Database faults other than `RowNotFound` are left out: lost connections, time-outs and constraint violations. `Store`, `Delete` and `DeleteById` never fail in the model.
- UserModel.UserTable.Store: the upsert is modelled as keyed by id alone. `insert … on duplicate key update` fires on a collision in any unique index, so this matches the source only if `id` is the table's only unique key. The schema is not part of this model. If `name` were unique, a signup with a taken name would rewrite that account: its password hash, refresh hash and timestamps would be replaced while it kept its old id, and the handler would return tokens for a new id that has no row. In the model such a signup adds a second row with the same name instead.
- The users schema is not part of this model, so nothing makes names unique. `FindByName` returns any one row with the name, as `fetch_optional` returns whichever row the database gives first. Names are compared by exact equality, while `where name = ?` compares under the column's collation, which the schema would fix. MySQL's default collations ignore case.
- UserController.CreateSession: its success case says some stored row with that name and a matching password was chosen, not which one. The database decides which row comes first.
- Concurrent requests on the same account are left out. The source has no guard against them.
- The clock is read once per handler: the handler takes a single `now`. The source reads the clock separately in `create`, `issue_tokens`, `revoke_tokens` and twice in `generate_tokens`. These reads differ by microseconds and only matter at a second boundary.
- Id generation (`get_new_id`) is not part of this model. The new id is a parameter.
- The body of `MyError::new_unauthorized()` is not known, because its module is not part of this model. It is an Unauthorized with a placeholder body.
- JSON bodies are not modelled beyond the error bodies. Neither is the serialisation of `Tokens` and `Auth` to the client.
- Validator's error parameters are dropped. A `ValidationError` keeps only its code and message, and the code appears in no body, as in the source, which serialises only the messages.
- `\d` follows the Unicode 15.0 decimal digits. A later Unicode version would add characters to the class.
