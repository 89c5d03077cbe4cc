/**
 * The account record and its transitions (src/model/user.rs): the
 * validation policies, `User::create`, the in-place token issue and revoke,
 * the two credential gates, and the users table the record lives in.
 */
module UserModel {

  import opened Wrappers
  import opened Errors
  import opened PasswordHashing
  import opened Jwt

  // ---------------------------------------------------------------------------
  // The validation patterns `[A-Za-z\d#$@!%&*?]{3,15}` and `{8,30}`.

  /** `\d` of the regex crate: a character of Unicode category Nd (Unicode 15.0). */
  predicate IsDecimalDigit(c: char)
  {
    var n := c as int;
    if n < 0x80 then '0' <= c <= '9'
    else
      || (0x660 <= n <= 0x669) || (0x6F0 <= n <= 0x6F9) || (0x7C0 <= n <= 0x7C9)
      || (0x966 <= n <= 0x96F) || (0x9E6 <= n <= 0x9EF) || (0xA66 <= n <= 0xA6F)
      || (0xAE6 <= n <= 0xAEF) || (0xB66 <= n <= 0xB6F) || (0xBE6 <= n <= 0xBEF)
      || (0xC66 <= n <= 0xC6F) || (0xCE6 <= n <= 0xCEF) || (0xD66 <= n <= 0xD6F)
      || (0xDE6 <= n <= 0xDEF) || (0xE50 <= n <= 0xE59) || (0xED0 <= n <= 0xED9)
      || (0xF20 <= n <= 0xF29) || (0x1040 <= n <= 0x1049) || (0x1090 <= n <= 0x1099)
      || (0x17E0 <= n <= 0x17E9) || (0x1810 <= n <= 0x1819) || (0x1946 <= n <= 0x194F)
      || (0x19D0 <= n <= 0x19D9) || (0x1A80 <= n <= 0x1A89) || (0x1A90 <= n <= 0x1A99)
      || (0x1B50 <= n <= 0x1B59) || (0x1BB0 <= n <= 0x1BB9) || (0x1C40 <= n <= 0x1C49)
      || (0x1C50 <= n <= 0x1C59) || (0xA620 <= n <= 0xA629) || (0xA8D0 <= n <= 0xA8D9)
      || (0xA900 <= n <= 0xA909) || (0xA9D0 <= n <= 0xA9D9) || (0xA9F0 <= n <= 0xA9F9)
      || (0xAA50 <= n <= 0xAA59) || (0xABF0 <= n <= 0xABF9) || (0xFF10 <= n <= 0xFF19)
      || (0x104A0 <= n <= 0x104A9) || (0x10D30 <= n <= 0x10D39) || (0x11066 <= n <= 0x1106F)
      || (0x110F0 <= n <= 0x110F9) || (0x11136 <= n <= 0x1113F) || (0x111D0 <= n <= 0x111D9)
      || (0x112F0 <= n <= 0x112F9) || (0x11450 <= n <= 0x11459) || (0x114D0 <= n <= 0x114D9)
      || (0x11650 <= n <= 0x11659) || (0x116C0 <= n <= 0x116C9) || (0x11730 <= n <= 0x11739)
      || (0x118E0 <= n <= 0x118E9) || (0x11950 <= n <= 0x11959) || (0x11C50 <= n <= 0x11C59)
      || (0x11D50 <= n <= 0x11D59) || (0x11DA0 <= n <= 0x11DA9) || (0x11F50 <= n <= 0x11F59)
      || (0x16A60 <= n <= 0x16A69) || (0x16AC0 <= n <= 0x16AC9) || (0x16B50 <= n <= 0x16B59)
      || (0x1E140 <= n <= 0x1E149) || (0x1E2F0 <= n <= 0x1E2F9) || (0x1E4F0 <= n <= 0x1E4F9)
      || (0x1E950 <= n <= 0x1E959) || (0x1FBF0 <= n <= 0x1FBF9) || (0x1D7CE <= n <= 0x1D7FF)
  }

  /** The character class shared by both patterns. */
  predicate Allowed(c: char)
  {
    ('A' <= c <= 'Z') || ('a' <= c <= 'z') || IsDecimalDigit(c) || c in "#$@!%&*?"
  }

  /** `s[i..j]` is a stretch of `s` lying wholly in the class. */
  predicate AllowedSpan(s: string, i: int, j: int)
  {
    0 <= i <= j <= |s| && forall k :: i <= k < j ==> Allowed(s[k])
  }

  /**
   * `Regex::is_match` of the unanchored pattern `[class]{min,max}`: some
   * stretch of `s` between `min` and `max` characters long lies in the class.
   */
  predicate IsMatch(s: string, min: nat, max: nat)
  {
    exists i, j :: 0 <= i <= j <= |s| && AllowedSpan(s, i, j) && min <= j - i <= max
  }

  /** The `n` characters of `s` from position `i` on are all allowed. */
  predicate RunAt(s: string, i: int, n: nat)
  {
    AllowedSpan(s, i, i + n)
  }

  /** `s` holds at least `n` allowed characters in a row. */
  predicate HasRun(s: string, n: nat)
  {
    exists i :: 0 <= i <= |s| && RunAt(s, i, n)
  }

  /**
   * Without anchors the upper bound is never enforced: a match exists exactly
   * when some run reaches the lower bound, however long `s` is and whatever
   * else it contains.
   */
  lemma IsMatchIffRun(s: string, min: nat, max: nat)
    requires min <= max
    ensures IsMatch(s, min, max) <==> HasRun(s, min)
  {
    if IsMatch(s, min, max) {
      var i, j :| 0 <= i <= j <= |s| && AllowedSpan(s, i, j) && min <= j - i <= max;
      assert RunAt(s, i, min);
    }
    if HasRun(s, min) {
      var i :| 0 <= i <= |s| && RunAt(s, i, min);
      assert AllowedSpan(s, i, i + min) && min <= (i + min) - i <= max;
    }
  }

  const NameMinLength: nat := 3
  const NameMaxLength: nat := 15
  const PasswordMinLength: nat := 8
  const PasswordMaxLength: nat := 30

  /** `RE_NAME.is_match(name)`: some 3 allowed characters in a row, at any length. */
  function NameMatches(name: string): (ok: bool)
    ensures ok <==> HasRun(name, NameMinLength)
  {
    IsMatchIffRun(name, NameMinLength, NameMaxLength);
    IsMatch(name, NameMinLength, NameMaxLength)
  }

  /** `RE_PASSWORD.is_match(password)`: some 8 allowed characters in a row, at any length. */
  function PasswordMatches(password: string): (ok: bool)
    ensures ok <==> HasRun(password, PasswordMinLength)
  {
    IsMatchIffRun(password, PasswordMinLength, PasswordMaxLength);
    IsMatch(password, PasswordMinLength, PasswordMaxLength)
  }

  const NameMessage: string := "must be 3-15 characters in alphabet, numbers or symbols"
  const PasswordMessage: string := "must be 8-30 characters in alphabet, numbers or symbols"

  /** The body of the password rejection; note its key is "errors", not "error". */
  const PasswordErrorBody: Json :=
    JObject(map["errors" := JObject(map["password" := JArray([JString(PasswordMessage)])])])

  /** The body of the name rejection, as the ValidationErrors conversion builds it. */
  const NameErrorBody: Json :=
    ErrorBody(JObject(map["name" := JArray([JString(NameMessage)])]))

  // ---------------------------------------------------------------------------
  // The record.

  /** One row of the users table: the persisted form of `User`. */
  datatype UserRow = UserRow(
    id: string,
    name: string,
    passwordHash: HashString,
    refreshTokenHash: Option<HashString>,
    createdAt: Time,
    updatedAt: Time)
  {
    /** `verify_password`: the password must match the stored hash. */
    function VerifyPassword(password: string): (r: Result<(), Error>)
      ensures r.Ok? <==> Matches(password, passwordHash)
      ensures r.Err? ==> r.error == FromUserError(NameAndPasswordUnMatch)
    {
      match Verify(password, passwordHash)
      case Ok(_) => Ok(())
      case Err(_) => Err(FromUserError(NameAndPasswordUnMatch))
    }

    /**
     * `verify_refresh_token`: with no session every token is refused; with one,
     * exactly the token whose hash is stored passes.
     */
    function VerifyRefreshToken(token: string): (r: Result<(), Error>)
      ensures r.Ok? <==> refreshTokenHash.Some? && Matches(token, refreshTokenHash.value)
      ensures r.Err? ==> r.error == FromUserError(RefreshTokenUnMatch)
    {
      match refreshTokenHash
      case None => Err(FromUserError(RefreshTokenUnMatch))
      case Some(h) =>
        match Verify(token, h)
        case Ok(_) => Ok(())
        case Err(_) => Err(FromUserError(RefreshTokenUnMatch))
    }
  }

  /** `User::validate()`: the name pattern is the record's only validation rule. */
  function Validate(user: UserRow): (errors: FieldErrors)
    ensures errors == map[] <==> NameMatches(user.name)
    ensures errors != map[] ==> errors.Keys == {"name"}
  {
    if NameMatches(user.name) then map[]
    else
      var errors := map["name" := [ValidationError("regex", Some(NameMessage))]];
      assert "name" in errors;
      errors
  }

  /**
   * `User::create`: the password is checked first (and the name is then not
   * looked at), the record is built with a hash of the password and no
   * session, and the name is validated last. The id, the clock and the salt
   * are parameters.
   */
  function Create(name: string, password: string, id: string, now: Time, salt: Salt): (r: Result<UserRow, Error>)
    ensures r.Err? <==> !HasRun(password, PasswordMinLength) || !HasRun(name, NameMinLength)
    ensures !HasRun(password, PasswordMinLength) ==> r == Err(UnprocessableEntity(PasswordErrorBody))
    ensures HasRun(password, PasswordMinLength) && !HasRun(name, NameMinLength) ==>
              r == Err(UnprocessableEntity(NameErrorBody))
    ensures r.Ok? ==> r.value.id == id && r.value.name == name
    ensures r.Ok? ==> r.value.refreshTokenHash == None
    ensures r.Ok? ==> r.value.createdAt == now && r.value.updatedAt == now
    ensures r.Ok? ==> Matches(password, r.value.passwordHash)
  {
    if !PasswordMatches(password) then
      Err(UnprocessableEntity(PasswordErrorBody))
    else
      var user := UserRow(id, name, Hash(password, salt), None, now, now);
      var errors := Validate(user);
      if errors != map[] then
        assert MessagesJson(errors["name"]) == [JString(NameMessage)];
        assert FieldMessages(errors) == map["name" := JArray([JString(NameMessage)])];
        Err(UnprocessableEntity(ValidationBody(errors)))
      else
        Ok(user)
  }

  /** Examples of the unanchored patterns: length caps and foreign characters do not matter. */
  lemma CreateExamples(id: string, now: Time, salt: Salt)
    ensures Create("alice", "Abcdef12", id, now, salt).Ok?
    ensures Create("alice", "Abcdefghij0123456789Abcdefghij0123456789", id, now, salt).Ok?
    ensures Create("alice", "~~ hunter22 ~~", id, now, salt).Ok?
    ensures Create("  bob  ", "Abcdef12", id, now, salt).Ok?
    ensures Create("alice", "pass word", id, now, salt) == Err(UnprocessableEntity(PasswordErrorBody))
    ensures Create("al", "Abcdef12", id, now, salt) == Err(UnprocessableEntity(NameErrorBody))
  {
    assert RunAt("Abcdef12", 0, 8);
    assert RunAt("Abcdefghij0123456789Abcdefghij0123456789", 0, 8);
    assert RunAt("~~ hunter22 ~~", 3, 8);
    assert RunAt("alice", 0, 3);
    assert RunAt("  bob  ", 2, 3);
    var p := "pass word";
    forall i | 0 <= i ensures !RunAt(p, i, 8) {
      if i + 8 <= |p| { assert p[4] == ' ' && !Allowed(p[4]); }
    }
  }

  // ---------------------------------------------------------------------------
  // The in-memory record, updated in place.

  /** `User`: the struct a handler loads, mutates and writes back. */
  class User {
    var id: string
    var name: string
    var passwordHash: HashString
    var refreshTokenHash: Option<HashString>
    var createdAt: Time
    var updatedAt: Time

    /** The record's current contents as a row. */
    function Row(): UserRow
      reads this
    {
      UserRow(id, name, passwordHash, refreshTokenHash, createdAt, updatedAt)
    }

    /** Loads a row into a fresh struct (`query_as!` mapping a row to `User`). */
    constructor (row: UserRow)
      ensures Row() == row
    {
      id, name, passwordHash := row.id, row.name, row.passwordHash;
      refreshTokenHash, createdAt, updatedAt := row.refreshTokenHash, row.createdAt, row.updatedAt;
    }

    /**
     * `issue_tokens`: a new token pair for this user; the stored refresh hash
     * becomes the hash of the new refresh token, so exactly that token now
     * passes `verify_refresh_token`. Nothing but the hash and `updated_at` changes.
     */
    method IssueTokens(now: Time, secrets: Secrets, salt: Salt) returns (tokens: Tokens)
      modifies this
      ensures tokens == GenerateTokens(Auth(old(id)), now, secrets)
      ensures Row() == old(Row()).(refreshTokenHash := Some(Hash(tokens.refreshToken, salt)), updatedAt := now)
      ensures forall t :: Row().VerifyRefreshToken(t).Ok? <==> t == tokens.refreshToken
    {
      tokens := GenerateTokens(Auth(id), now, secrets);
      refreshTokenHash := Some(Hash(tokens.refreshToken, salt));
      updatedAt := now;
    }

    /**
     * `revoke_tokens`: ends the session; from here on no refresh token passes.
     * Nothing but the hash and `updated_at` changes.
     */
    method RevokeTokens(now: Time)
      modifies this
      ensures Row() == old(Row()).(refreshTokenHash := None, updatedAt := now)
      ensures forall t :: Row().VerifyRefreshToken(t).Err?
    {
      refreshTokenHash := None;
      updatedAt := now;
    }
  }

  /** Revoking twice is revoking once, up to the timestamp. */
  method RevokeTwice(user: User, now1: Time, now2: Time)
    modifies user
    ensures user.Row() == old(user.Row()).(refreshTokenHash := None, updatedAt := now2)
  {
    user.RevokeTokens(now1);
    user.RevokeTokens(now2);
  }

  // ---------------------------------------------------------------------------
  // The users table.

  /** The `users` table: rows keyed by id. */
  class UserTable {
    var rows: map<string, UserRow>

    /** Every row sits under its own id. */
    ghost predicate Valid()
      reads this
    {
      forall k :: k in rows ==> rows[k].id == k
    }

    constructor ()
      ensures Valid() && rows == map[]
    {
      rows := map[];
    }

    /** `User::find`: the row with this id, or the 404 of a missing row. */
    method Find(id: string) returns (r: Result<User, Error>)
      requires Valid()
      ensures r.Ok? <==> id in rows
      ensures r.Ok? ==> fresh(r.value) && r.value.Row() == rows[id]
      ensures r.Err? ==> r.error == FromSqlxError(RowNotFound)
    {
      if id in rows {
        var user := new User(rows[id]);
        r := Ok(user);
      } else {
        r := Err(FromSqlxError(RowNotFound));
      }
    }

    /** `User::find_by_name`: some row with this name, if there is one. */
    method FindByName(name: string) returns (r: Option<User>)
      requires Valid()
      ensures r.None? <==> forall k :: k in rows ==> rows[k].name != name
      ensures r.Some? ==> fresh(r.value) && r.value.id in rows && rows[r.value.id] == r.value.Row()
      ensures r.Some? ==> r.value.name == name
    {
      if k :| k in rows && rows[k].name == name {
        var user := new User(rows[k]);
        r := Some(user);
      } else {
        r := None;
      }
    }

    /**
     * `User::store`: insert, or update the row whose unique key collides
     * (here: the id, the table's only key in this model).
     */
    method Store(user: User)
      requires Valid()
      modifies this
      ensures Valid()
      ensures rows == old(rows)[user.id := user.Row()]
    {
      rows := rows[user.id := user.Row()];
    }

    /** `User::delete`: remove this user's row. */
    method Delete(user: User)
      requires Valid()
      modifies this
      ensures Valid()
      ensures rows == old(rows) - {user.id}
    {
      rows := rows - {user.id};
    }

    /** `User::delete_by_id`: remove the row with this id; a missing id is not an error. */
    method DeleteById(id: string)
      requires Valid()
      modifies this
      ensures Valid()
      ensures rows == old(rows) - {id}
    {
      rows := rows - {id};
    }
  }
}
