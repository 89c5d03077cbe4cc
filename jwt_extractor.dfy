/**
 * Request authentication (src/controller/lib/jwt_extractor.rs): the bearer
 * token is cut out of the Authorization header with the pattern
 * `^Bearer\s(.*)$`, then decoded as an access or a refresh token.
 */
module JwtExtractor {

  import opened Wrappers
  import opened Errors
  import opened Jwt

  newtype byte = x: int | 0 <= x < 256

  /** A raw header value, as bytes. */
  type HeaderValue = seq<byte>

  /** The request as far as authentication goes: its Authorization header values, in order. */
  datatype Request = Request(authorization: seq<HeaderValue>)

  /** `HeaderMap::get`: the first value of the header, if any. */
  function GetHeader(req: Request): (r: Option<HeaderValue>)
    ensures r.None? <==> req.authorization == []
    ensures r.Some? ==> r.value == req.authorization[0]
  {
    if req.authorization == [] then None else Some(req.authorization[0])
  }

  /** Visible ASCII or a tab, the bytes `HeaderValue::to_str` accepts. */
  predicate VisibleAscii(b: byte)
  {
    (32 <= b < 127) || b == 9
  }

  /** `HeaderValue::to_str`: the value as text when every byte is visible ASCII. */
  function ToStr(v: HeaderValue): (r: Option<string>)
    ensures r.Some? <==> forall i :: 0 <= i < |v| ==> VisibleAscii(v[i])
    ensures r.Some? ==> |r.value| == |v| && forall i :: 0 <= i < |v| ==> r.value[i] as int == v[i] as int
  {
    if forall i :: 0 <= i < |v| ==> VisibleAscii(v[i])
    then Some(seq(|v|, i requires 0 <= i < |v| => (v[i] as int) as char))
    else None
  }

  /** `\s` of the regex crate: the Unicode White_Space property. */
  predicate IsWhitespace(c: char)
  {
    var n := c as int;
    || (0x09 <= n <= 0x0D) || n == 0x20 || n == 0x85 || n == 0xA0 || n == 0x1680
    || (0x2000 <= n <= 0x200A) || n == 0x2028 || n == 0x2029 || n == 0x202F
    || n == 0x205F || n == 0x3000
  }

  const Scheme: string := "Bearer"

  /**
   * Capture group 1 of `^Bearer\s(.*)$` (no multi-line mode): the scheme must
   * open the text, exactly one whitespace character is consumed after it,
   * and the rest is captured verbatim provided it holds no line feed, which
   * `.` does not match and `$` cannot skip.
   */
  function MatchBearer(s: string): (r: Option<string>)
    ensures r.Some? <==> |s| > 6 && s[..6] == Scheme && IsWhitespace(s[6]) && '\n' !in s[7..]
    ensures r.Some? ==> s == Scheme + [s[6]] + r.value
  {
    if |s| > 6 && s[..6] == Scheme && IsWhitespace(s[6]) && '\n' !in s[7..] then
      assert s == Scheme + [s[6]] + s[7..];
      Some(s[7..])
    else None
  }

  /** Anything after "Bearer" and one whitespace character comes back unchanged. */
  lemma MatchBearerOfScheme(w: char, rest: string)
    requires IsWhitespace(w) && '\n' !in rest
    ensures MatchBearer(Scheme + [w] + rest) == Some(rest)
  {
    var s := Scheme + [w] + rest;
    assert s[..6] == Scheme && s[6] == w && s[7..] == rest;
  }

  /** The examples that pin the pattern down: the scheme is case-sensitive and anchored. */
  lemma MatchBearerExamples()
    ensures MatchBearer("Bearer abc") == Some("abc")
    ensures MatchBearer("Bearer ") == Some("")
    ensures MatchBearer("Bearer  x") == Some(" x")
    ensures MatchBearer("Bearer\tx") == Some("x")
    ensures MatchBearer("bearer x").None?
    ensures MatchBearer(" Bearer x").None?
    ensures MatchBearer("Token x").None?
    ensures MatchBearer("Bearer").None?
    ensures MatchBearer("Bearerx").None?
  {
    MatchBearerOfScheme(' ', "abc");
    MatchBearerOfScheme(' ', "");
    MatchBearerOfScheme(' ', " x");
    MatchBearerOfScheme('\t', "x");
    assert "bearer x"[..6][0] != Scheme[0];
    assert " Bearer x"[..6][0] != Scheme[0];
  }

  /**
   * `extract_bearer_token`: a missing header, a value that is not visible
   * ASCII, and a value the pattern rejects are all `InvalidToken`.
   */
  function ExtractBearerToken(req: Request): (r: Result<string, JwtErrorKind>)
    ensures r.Err? ==> r.error == InvalidToken
    ensures req.authorization == [] ==> r.Err?
    ensures r.Ok? <==> req.authorization != [] && ToStr(req.authorization[0]).Some?
                         && MatchBearer(ToStr(req.authorization[0]).value).Some?
    ensures r.Ok? ==> r.value == MatchBearer(ToStr(req.authorization[0]).value).value
  {
    match GetHeader(req)
    case None => Err(InvalidToken)
    case Some(v) =>
      match ToStr(v)
      case None => Err(InvalidToken)
      case Some(text) =>
        match MatchBearer(text)
        case None => Err(InvalidToken)
        case Some(token) => Ok(token)
  }

  /** The plain-text 401 `ErrorUnauthorized` builds from the extraction error. */
  datatype BearerRejection = BearerRejection(cause: JwtErrorKind)
  {
    function Status(): nat { 401 }
  }

  /** `BearerToken::from_request`: the raw token, any failure answered with 401. */
  function BearerToken(req: Request): (r: Result<string, BearerRejection>)
    ensures r.Ok? <==> ExtractBearerToken(req).Ok?
    ensures r.Ok? ==> r.value == ExtractBearerToken(req).value
    ensures r.Err? ==> r.error.Status() == 401
  {
    match ExtractBearerToken(req)
    case Ok(token) => Ok(token)
    case Err(e) => Err(BearerRejection(e))
  }

  /** `AccessTokenDecoded::from_request`: extraction, then decoding under the access secret. */
  function AccessTokenDecoded(req: Request, secrets: Secrets, now: Time): (r: Result<Claims, Error>)
    ensures r.Ok? <==> ExtractBearerToken(req).Ok?
                       && DecodeAccessToken(ExtractBearerToken(req).value, secrets, now).Ok?
    ensures r.Ok? ==> ExtractBearerToken(req).value == Encode(secrets.accessTokenSecret, r.value)
    ensures r.Err? ==> r.error == FromJwtError(InvalidToken)
  {
    match ExtractBearerToken(req)
    case Err(e) => Err(FromJwtError(e))
    case Ok(token) =>
      match DecodeAccessToken(token, secrets, now)
      case Err(e) => Err(FromJwtError(e))
      case Ok(claims) => Ok(claims)
  }

  /** `RefreshTokenDecoded::from_request`: the same, under the refresh secret. */
  function RefreshTokenDecoded(req: Request, secrets: Secrets, now: Time): (r: Result<Claims, Error>)
    ensures r.Ok? <==> ExtractBearerToken(req).Ok?
                       && DecodeRefreshToken(ExtractBearerToken(req).value, secrets, now).Ok?
    ensures r.Ok? ==> ExtractBearerToken(req).value == Encode(secrets.refreshTokenSecret, r.value)
    ensures r.Err? ==> r.error == FromJwtError(InvalidToken)
  {
    match ExtractBearerToken(req)
    case Err(e) => Err(FromJwtError(e))
    case Ok(token) =>
      match DecodeRefreshToken(token, secrets, now)
      case Err(e) => Err(FromJwtError(e))
      case Ok(claims) => Ok(claims)
  }

  /** `into_auth`: the identity named by the decoded claims' user id. */
  function IntoAuth(c: Claims): Auth
  {
    Auth(c.userId)
  }

  /** The claims issued to `auth`, of either class, name `auth` again. */
  lemma IntoAuthOfIssuedClaims(auth: Auth, now: Time)
    ensures IntoAuth(AccessClaims(auth, now)) == auth
    ensures IntoAuth(RefreshClaims(auth, now)) == auth
  {
  }

  /** Text that fits a header value unchanged. */
  predicate PrintableAscii(s: string)
  {
    forall i :: 0 <= i < |s| ==> ' ' <= s[i] <= '~'
  }

  /** Every token, whatever its secret and claims, is printable ASCII, as base64url is. */
  lemma EncodePrintable(secret: string, c: Claims)
    ensures PrintableAscii(Encode(secret, c))
  {
    var token := Encode(secret, c);
    forall i | 0 <= i < |token|
      ensures ' ' <= token[i] <= '~'
    {
      assert TokenChar(token[i]);
    }
  }

  /** The request a client sends with `token`: one header "Bearer <token>". */
  function BearerRequest(token: string): (req: Request)
    requires PrintableAscii(token)
  {
    Request([seq(|Scheme| + 1 + |token|,
                 i requires 0 <= i < |Scheme| + 1 + |token| =>
                   ((Scheme + " " + token)[i] as int) as byte)])
  }

  lemma ExtractFromBearerRequest(token: string)
    requires PrintableAscii(token)
    ensures ExtractBearerToken(BearerRequest(token)) == Ok(token)
  {
    var req := BearerRequest(token);
    var v := req.authorization[0];
    var text := ToStr(v).value;
    assert text == Scheme + " " + token;
    MatchBearerOfScheme(' ', token);
  }

  /** A request bearing a token that decodes under the access secret yields that token's claims. */
  lemma BearerAccessTokenDecodes(token: string, secrets: Secrets, now: Time, claims: Claims)
    requires PrintableAscii(token)
    requires DecodeAccessToken(token, secrets, now) == Ok(claims)
    ensures AccessTokenDecoded(BearerRequest(token), secrets, now) == Ok(claims)
  {
    ExtractFromBearerRequest(token);
  }

  /** The same under the refresh secret. */
  lemma BearerRefreshTokenDecodes(token: string, secrets: Secrets, now: Time, claims: Claims)
    requires PrintableAscii(token)
    requires DecodeRefreshToken(token, secrets, now) == Ok(claims)
    ensures RefreshTokenDecoded(BearerRequest(token), secrets, now) == Ok(claims)
  {
    ExtractFromBearerRequest(token);
  }

  /**
   * End to end: a request bearing an access token issued to `auth`
   * authenticates as `auth` until the token expires, whatever the secrets.
   */
  lemma AccessTokenAuthenticates(auth: Auth, issued: Time, secrets: Secrets, later: Time)
    requires Timestamp(later) <= Timestamp(issued) + 1800 + DefaultLeeway
    ensures AccessTokenDecoded(BearerRequest(GenerateTokens(auth, issued, secrets).accessToken), secrets, later).Ok?
    ensures IntoAuth(AccessTokenDecoded(BearerRequest(GenerateTokens(auth, issued, secrets).accessToken), secrets, later).value)
            == auth
  {
    var claims := AccessClaims(auth, issued);
    EncodePrintable(secrets.accessTokenSecret, claims);
    GeneratedAccessTokenDecodes(auth, issued, secrets, later);
    BearerAccessTokenDecodes(GenerateTokens(auth, issued, secrets).accessToken, secrets, later, claims);
  }

  /** The same for a refresh token, which names its user for the refresh handler. */
  lemma RefreshTokenAuthenticates(auth: Auth, issued: Time, secrets: Secrets, later: Time)
    requires Timestamp(later) <= Timestamp(issued) + 1209600 + DefaultLeeway
    ensures RefreshTokenDecoded(BearerRequest(GenerateTokens(auth, issued, secrets).refreshToken), secrets, later).Ok?
    ensures IntoAuth(RefreshTokenDecoded(BearerRequest(GenerateTokens(auth, issued, secrets).refreshToken), secrets, later).value)
            == auth
  {
    var claims := RefreshClaims(auth, issued);
    EncodePrintable(secrets.refreshTokenSecret, claims);
    GeneratedRefreshTokenDecodes(auth, issued, secrets, later);
    BearerRefreshTokenDecodes(GenerateTokens(auth, issued, secrets).refreshToken, secrets, later, claims);
  }
}
