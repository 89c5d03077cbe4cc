/**
 * The account and session handlers (src/controller/user.rs). Each one
 * authenticates the request, loads a record from the users table, changes
 * it in place and writes it back (or deletes it). Per account this is a
 * two-state machine: no session (`refresh_token_hash` empty) and an active
 * session holding the hash of the one refresh token that may be used next.
 */
module UserController {

  import opened Wrappers
  import opened Errors
  import opened PasswordHashing
  import opened Jwt
  import opened JwtExtractor
  import opened UserModel

  /** A handler's failure: an extractor's plain 401, or an error of the service. */
  datatype HandlerError = Rejected(rejection: BearerRejection) | Failed(error: Error)
  {
    function Status(): nat
    {
      match this
      case Rejected(rejection) => rejection.Status()
      case Failed(error) => ErrorResponse(error).status
    }
  }

  /**
   * `MyError::new_unauthorized()`. Its module is not part of this model;
   * only its kind is known, so its body here is a placeholder.
   */
  const NewUnauthorized: Error := Unauthorized(JNull)

  /** The user id a request's access token names, when it decodes. */
  function AccessUserId(req: Request, secrets: Secrets, now: Time): string
    requires AccessTokenDecoded(req, secrets, now).Ok?
  {
    IntoAuth(AccessTokenDecoded(req, secrets, now).value).userId
  }

  /** The user id a request's refresh token names, when it decodes. */
  function RefreshUserId(req: Request, secrets: Secrets, now: Time): string
    requires RefreshTokenDecoded(req, secrets, now).Ok?
  {
    IntoAuth(RefreshTokenDecoded(req, secrets, now).value).userId
  }

  /** `row` after a token issue at `now` whose refresh token is `refresh`. */
  function WithSession(row: UserRow, refresh: string, salt: Salt, now: Time): UserRow
  {
    row.(refreshTokenHash := Some(Hash(refresh, salt)), updatedAt := now)
  }

  /** `GET /user`: the identity of the bearer of a valid access token; no table access. */
  function Index(req: Request, secrets: Secrets, now: Time): (r: Result<Auth, HandlerError>)
    ensures r.Ok? <==> AccessTokenDecoded(req, secrets, now).Ok?
    ensures r.Ok? ==> exists c :: ExtractBearerToken(req).value == Encode(secrets.accessTokenSecret, c)
                                  && c.userId == r.value.userId && c.exp >= Timestamp(now) - DefaultLeeway
    ensures r.Err? ==> r == Err(Failed(FromJwtError(InvalidToken))) && r.error.Status() == 401
  {
    match AccessTokenDecoded(req, secrets, now)
    case Err(e) => Err(Failed(e))
    case Ok(claims) => Ok(IntoAuth(claims))
  }

  /** A client holding a fresh access token is told its own identity. */
  lemma IndexAnswersIssuedIdentity(auth: Auth, issued: Time, secrets: Secrets, later: Time)
    requires Timestamp(later) <= Timestamp(issued) + 1800 + DefaultLeeway
    ensures Index(BearerRequest(GenerateTokens(auth, issued, secrets).accessToken), secrets, later) == Ok(auth)
  {
    AccessTokenAuthenticates(auth, issued, secrets, later);
  }

  /**
   * `POST /user`: create the account, open its first session and store it.
   * A rejected name or password stores nothing.
   */
  method Create(db: UserTable, name: string, password: string, id: string, now: Time,
                secrets: Secrets, passwordSalt: Salt, tokenSalt: Salt)
    returns (r: Result<Tokens, HandlerError>)
    requires db.Valid()
    modifies db
    ensures db.Valid()
    ensures UserModel.Create(name, password, id, now, passwordSalt).Err? ==>
              r == Err(Failed(UserModel.Create(name, password, id, now, passwordSalt).error))
              && db.rows == old(db.rows)
    ensures UserModel.Create(name, password, id, now, passwordSalt).Ok? ==>
              r == Ok(GenerateTokens(Auth(id), now, secrets))
              && db.rows == old(db.rows)[id := WithSession(UserModel.Create(name, password, id, now, passwordSalt).value,
                                                          r.value.refreshToken, tokenSalt, now)]
    ensures r.Ok? ==> id in db.rows && db.rows[id].VerifyPassword(password).Ok?
    ensures r.Ok? ==> forall t :: db.rows[id].VerifyRefreshToken(t).Ok? <==> t == r.value.refreshToken
  {
    var created := UserModel.Create(name, password, id, now, passwordSalt);
    if created.Err? {
      return Err(Failed(created.error));
    }
    var user := new User(created.value);
    var tokens := user.IssueTokens(now, secrets, tokenSalt);
    db.Store(user);
    r := Ok(tokens);
  }

  /**
   * `DELETE /user`: remove the row of the authenticated id; an id with no
   * row is not an error.
   */
  method Destroy(db: UserTable, req: Request, secrets: Secrets, now: Time)
    returns (r: Result<(), HandlerError>)
    requires db.Valid()
    modifies db
    ensures db.Valid()
    ensures AccessTokenDecoded(req, secrets, now).Err? ==>
              r == Err(Failed(AccessTokenDecoded(req, secrets, now).error)) && db.rows == old(db.rows)
    ensures AccessTokenDecoded(req, secrets, now).Ok? ==>
              r == Ok(()) && db.rows == old(db.rows) - {AccessUserId(req, secrets, now)}
  {
    var decoded := AccessTokenDecoded(req, secrets, now);
    if decoded.Err? {
      return Err(Failed(decoded.error));
    }
    var auth := IntoAuth(decoded.value);
    db.DeleteById(auth.userId);
    r := Ok(());
  }

  /**
   * `POST /user/session`: log in by name and password. An unknown name and
   * a wrong password both fail as 401 and change nothing; success rewrites
   * the refresh hash and `updated_at` of that one row.
   */
  method CreateSession(db: UserTable, name: string, password: string, now: Time,
                       secrets: Secrets, salt: Salt)
    returns (r: Result<Tokens, HandlerError>)
    requires db.Valid()
    modifies db
    ensures db.Valid()
    ensures r.Err? ==> db.rows == old(db.rows)
    ensures r.Err? ==> r == Err(Failed(NewUnauthorized)) || r == Err(Failed(FromUserError(NameAndPasswordUnMatch)))
    ensures (forall k :: k in old(db.rows) ==> old(db.rows)[k].name != name) ==> r == Err(Failed(NewUnauthorized))
    ensures (exists k :: k in old(db.rows) && old(db.rows)[k].name == name) && r.Err? ==>
              r == Err(Failed(FromUserError(NameAndPasswordUnMatch)))
    ensures (forall k :: k in old(db.rows) && old(db.rows)[k].name == name ==> old(db.rows)[k].VerifyPassword(password).Err?)
              ==> r.Err?
    ensures ((exists k :: k in old(db.rows) && old(db.rows)[k].name == name)
             && (forall k :: k in old(db.rows) && old(db.rows)[k].name == name ==> old(db.rows)[k].VerifyPassword(password).Ok?))
              ==> r.Ok?
    ensures r.Ok? ==>
              exists k :: k in old(db.rows) && old(db.rows)[k].name == name
                          && old(db.rows)[k].VerifyPassword(password).Ok?
                          && r.value == GenerateTokens(Auth(k), now, secrets)
                          && db.rows == old(db.rows)[k := WithSession(old(db.rows)[k], r.value.refreshToken, salt, now)]
  {
    var found := db.FindByName(name);
    if found.None? {
      return Err(Failed(NewUnauthorized));
    }
    var user := found.value;
    var check := user.Row().VerifyPassword(password);
    if check.Err? {
      return Err(Failed(check.error));
    }
    ghost var before := user.Row();
    var tokens := user.IssueTokens(now, secrets, salt);
    db.Store(user);
    r := Ok(tokens);
    assert before == old(db.rows)[before.id];
  }

  /**
   * `PATCH /user/session`: rotate the session. The Authorization header must
   * carry the refresh token itself; it must decode under the refresh secret,
   * name a stored user, and match that user's stored hash. On success the
   * stored hash is replaced by the hash of the new refresh token, so only
   * the new token passes afterwards.
   */
  method UpdateSession(db: UserTable, req: Request, now: Time, secrets: Secrets, salt: Salt)
    returns (r: Result<Tokens, HandlerError>)
    requires db.Valid()
    modifies db
    ensures db.Valid()
    ensures r.Err? ==> db.rows == old(db.rows)
    ensures BearerToken(req).Err? ==> r == Err(Rejected(BearerToken(req).error))
    ensures BearerToken(req).Ok? && RefreshTokenDecoded(req, secrets, now).Err? ==>
              r == Err(Failed(FromJwtError(InvalidToken)))
    ensures RefreshTokenDecoded(req, secrets, now).Ok? && RefreshUserId(req, secrets, now) !in old(db.rows) ==>
              r == Err(Failed(FromSqlxError(RowNotFound)))
    ensures RefreshTokenDecoded(req, secrets, now).Ok? && RefreshUserId(req, secrets, now) in old(db.rows)
            && old(db.rows)[RefreshUserId(req, secrets, now)].VerifyRefreshToken(BearerToken(req).value).Err? ==>
              r == Err(Failed(FromUserError(RefreshTokenUnMatch)))
    ensures RefreshTokenDecoded(req, secrets, now).Ok? && RefreshUserId(req, secrets, now) in old(db.rows)
            && old(db.rows)[RefreshUserId(req, secrets, now)].VerifyRefreshToken(BearerToken(req).value).Ok? ==>
              r.Ok?
    ensures r.Ok? ==>
              RefreshTokenDecoded(req, secrets, now).Ok?
              && var uid := RefreshUserId(req, secrets, now);
              && uid in old(db.rows)
              && old(db.rows)[uid].VerifyRefreshToken(BearerToken(req).value).Ok?
              && r.value == GenerateTokens(Auth(uid), now, secrets)
              && db.rows == old(db.rows)[uid := WithSession(old(db.rows)[uid], r.value.refreshToken, salt, now)]
              && forall t :: db.rows[uid].VerifyRefreshToken(t).Ok? <==> t == r.value.refreshToken
    ensures forall k :: k in db.rows && db.rows[k].refreshTokenHash.Some? ==>
              k in old(db.rows) && old(db.rows)[k].refreshTokenHash.Some?
  {
    var token := BearerToken(req);
    if token.Err? {
      return Err(Rejected(token.error));
    }
    var decoded := RefreshTokenDecoded(req, secrets, now);
    if decoded.Err? {
      return Err(Failed(decoded.error));
    }
    var auth := IntoAuth(decoded.value);
    var found := db.Find(auth.userId);
    if found.Err? {
      return Err(Failed(found.error));
    }
    var user := found.value;
    var check := user.Row().VerifyRefreshToken(token.value);
    if check.Err? {
      return Err(Failed(check.error));
    }
    var tokens := user.IssueTokens(now, secrets, salt);
    db.Store(user);
    r := Ok(tokens);
  }

  /**
   * `DELETE /user/session`: log out. The authenticated user's refresh hash
   * is cleared, so no refresh token of theirs passes until the next login.
   */
  method DestroySession(db: UserTable, req: Request, now: Time, secrets: Secrets)
    returns (r: Result<(), HandlerError>)
    requires db.Valid()
    modifies db
    ensures db.Valid()
    ensures r.Err? ==> db.rows == old(db.rows)
    ensures AccessTokenDecoded(req, secrets, now).Err? ==>
              r == Err(Failed(AccessTokenDecoded(req, secrets, now).error))
    ensures AccessTokenDecoded(req, secrets, now).Ok? && AccessUserId(req, secrets, now) !in old(db.rows) ==>
              r == Err(Failed(FromSqlxError(RowNotFound)))
    ensures AccessTokenDecoded(req, secrets, now).Ok? && AccessUserId(req, secrets, now) in old(db.rows) ==>
              var uid := AccessUserId(req, secrets, now);
              && r == Ok(())
              && db.rows == old(db.rows)[uid := old(db.rows)[uid].(refreshTokenHash := None, updatedAt := now)]
              && forall t :: db.rows[uid].VerifyRefreshToken(t).Err?
    ensures forall k :: k in db.rows && db.rows[k].refreshTokenHash.Some? ==>
              k in old(db.rows) && old(db.rows)[k].refreshTokenHash.Some?
  {
    var decoded := AccessTokenDecoded(req, secrets, now);
    if decoded.Err? {
      return Err(Failed(decoded.error));
    }
    var auth := IntoAuth(decoded.value);
    var found := db.Find(auth.userId);
    if found.Err? {
      return Err(Failed(found.error));
    }
    var user := found.value;
    user.RevokeTokens(now);
    db.Store(user);
    r := Ok(());
  }

  // ---------------------------------------------------------------------------
  // The session state machine, on single rows.

  /**
   * Rotation: once a session is rewritten with a new refresh token, the row
   * accepts only that token; any earlier one passes again only if it is
   * literally the same string.
   */
  lemma RotationAcceptsOnlyNewToken(row: UserRow, presented: string, issued: Tokens, salt: Salt, now: Time)
    ensures WithSession(row, issued.refreshToken, salt, now).VerifyRefreshToken(presented).Ok?
            <==> presented == issued.refreshToken
  {
  }

  /**
   * Replaying a rotated refresh token fails when the rotation happened in a
   * later second than the issue of that token; within the same second the
   * tokens coincide and the replay succeeds, since claims carry no nonce.
   */
  lemma ReplayAfterRotation(row: UserRow, auth: Auth, issuedAt: Time, rotatedAt: Time,
                            secrets: Secrets, salt: Salt)
    ensures var replayed := GenerateTokens(auth, issuedAt, secrets).refreshToken;
            var rotated := WithSession(row, GenerateTokens(auth, rotatedAt, secrets).refreshToken, salt, rotatedAt);
            rotated.VerifyRefreshToken(replayed).Ok? <==> Timestamp(issuedAt) == Timestamp(rotatedAt)
  {
    GenerateTokensDeterministic(auth, issuedAt, rotatedAt, secrets);
  }

  /** After a logout the row refuses every refresh token, whatever it is. */
  lemma LogoutRefusesEveryToken(row: UserRow, now: Time, token: string)
    ensures row.(refreshTokenHash := None, updatedAt := now).VerifyRefreshToken(token)
            == Err(FromUserError(RefreshTokenUnMatch))
  {
  }

  /**
   * Logout, then refresh: a refresh for the user who just logged out fails
   * with the refresh-token mismatch, whatever token it presents.
   */
  method LogoutThenRefresh(db: UserTable, accessReq: Request, refreshReq: Request,
                           now: Time, later: Time, secrets: Secrets, salt: Salt)
    returns (logout: Result<(), HandlerError>, refresh: Result<Tokens, HandlerError>)
    requires db.Valid()
    modifies db
    ensures logout.Ok? ==> AccessTokenDecoded(accessReq, secrets, now).Ok?
    ensures logout.Ok? && AccessTokenDecoded(accessReq, secrets, now).Ok?
            && RefreshTokenDecoded(refreshReq, secrets, later).Ok?
            && RefreshUserId(refreshReq, secrets, later) == AccessUserId(accessReq, secrets, now) ==>
              refresh == Err(Failed(FromUserError(RefreshTokenUnMatch)))
  {
    logout := DestroySession(db, accessReq, now, secrets);
    refresh := UpdateSession(db, refreshReq, later, secrets, salt);
  }
}
