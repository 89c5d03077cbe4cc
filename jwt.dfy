/**
 * Token claims and the two token classes (src/lib/jwt.rs).
 *
 * Signing and parsing belong to the jsonwebtoken crate, which this model
 * replaces by a stand-in codec: a token is a function of (secret, claims),
 * and decoding under a secret accepts exactly the unexpired tokens encoded
 * under that same secret.
 */
module Jwt {

  import opened Wrappers
  import opened Errors

  /** An instant, in nanoseconds since the Unix epoch (chrono's `DateTime<Utc>`). */
  type Time = int

  const NanosPerSecond: int := 1_000_000_000

  /** `DateTime::timestamp()`: whole seconds, rounded towards minus infinity. */
  function Timestamp(t: Time): (secs: int)
    ensures secs * NanosPerSecond <= t < (secs + 1) * NanosPerSecond
  {
    t / NanosPerSecond
  }

  /** Adding whole seconds before truncating is adding them after. */
  lemma TimestampShift(t: Time, k: int)
    ensures Timestamp(t + k * NanosPerSecond) == Timestamp(t) + k
  {
    var q, r := t / NanosPerSecond, t % NanosPerSecond;
    assert t + k * NanosPerSecond == (q + k) * NanosPerSecond + r;
  }

  /** The authenticated identity (`Auth`; callers' `.uid` is its `user_id`). */
  datatype Auth = Auth(userId: string)

  /** The token payload: subject, expiry in epoch seconds, and the user id. */
  datatype Claims = Claims(sub: string, exp: int, userId: string)

  /** The pair returned to clients. */
  datatype Tokens = Tokens(accessToken: string, refreshToken: string)

  /** The two signing secrets, read from the environment at start-up. */
  datatype Secrets = Secrets(accessTokenSecret: string, refreshTokenSecret: string)

  /** Both secrets default to "secret" when the environment does not set them. */
  const DefaultSecrets: Secrets := Secrets("secret", "secret")

  /** Lifetimes in seconds: `Duration::minutes(30)` and `Duration::weeks(2)`. */
  const AccessLifetimeSeconds: int := 30 * 60
  const RefreshLifetimeSeconds: int := 2 * 7 * 24 * 60 * 60

  /** The leeway in seconds of `Validation::default()`. */
  const DefaultLeeway: nat := 60

  // ---------------------------------------------------------------------------
  // Stand-in codec for the jsonwebtoken crate. Like base64url, it writes
  // any text as header-safe characters: each character of a field becomes
  // the six lower-case hex digits of its code point, and '.' closes the field.

  predicate IsHexDigit(c: char)
  {
    ('0' <= c <= '9') || ('a' <= c <= 'f')
  }

  /** The characters a token is made of. */
  predicate TokenChar(c: char)
  {
    c == '.' || IsHexDigit(c)
  }

  /** The hex digit `d`. */
  function HexDigit(d: nat): (c: char)
    requires d < 16
    ensures IsHexDigit(c)
  {
    if d < 10 then ('0' as int + d) as char else ('a' as int + d - 10) as char
  }

  /** The value of a hex digit (0 for any other character). */
  function HexDigitValue(c: char): nat
  {
    if '0' <= c <= '9' then c as int - '0' as int
    else if 'a' <= c <= 'f' then c as int - 'a' as int + 10
    else 0
  }

  function Pow16(w: nat): nat
  {
    if w == 0 then 1 else 16 * Pow16(w - 1)
  }

  /** The last `w` hex digits of `n`, most significant first. */
  function Hex(n: nat, w: nat): (s: string)
    ensures |s| == w
    ensures forall i :: 0 <= i < w ==> IsHexDigit(s[i])
  {
    if w == 0 then [] else Hex(n / 16, w - 1) + [HexDigit(n % 16)]
  }

  /** The value of a hex string read left to right. */
  function HexValue(s: string): nat
  {
    if s == [] then 0 else 16 * HexValue(s[..|s| - 1]) + HexDigitValue(s[|s| - 1])
  }

  lemma {:induction false} HexValueOfHex(n: nat, w: nat)
    requires n < Pow16(w)
    ensures HexValue(Hex(n, w)) == n
  {
    if w > 0 {
      HexValueOfHex(n / 16, w - 1);
      var s := Hex(n, w);
      assert s[..|s| - 1] == Hex(n / 16, w - 1);
    }
  }

  /** Width of one encoded character: 16^6 exceeds every Unicode code point. */
  const CharWidth: nat := 6

  /** One character, written as the hex digits of its code point. */
  function CharCode(c: char): string
  {
    Hex(c as int, CharWidth)
  }

  /** A string field of a token: each character's code, then '.'. */
  function Frame(s: string): (t: string)
    ensures forall i :: 0 <= i < |t| ==> TokenChar(t[i])
  {
    if s == [] then "." else CharCode(s[0]) + Frame(s[1..])
  }

  /** Reads one field from the front of `t`, returning it and what follows. */
  function ParseFrame(t: string): (r: Option<(string, string)>)
    ensures r.Some? ==> t == Frame(r.value.0) + r.value.1
    ensures r.Some? ==> |r.value.1| < |t|
    decreases |t|
  {
    if t == [] then None
    else if t[0] == '.' then Some(([], t[1..]))
    else if |t| >= CharWidth then
      var v := HexValue(t[..CharWidth]);
      if (v < 0xD800 || 0xE000 <= v < 0x11_0000) && Hex(v, CharWidth) == t[..CharWidth] then
        match ParseFrame(t[CharWidth..])
        case None => None
        case Some((s, rest)) =>
          var c := v as char;
          assert CharCode(c) == t[..CharWidth];
          assert [c] + s != [] && ([c] + s)[0] == c && ([c] + s)[1..] == s;
          assert t == CharCode(c) + t[CharWidth..];
          Some(([c] + s, rest))
      else None
    else None
  }

  lemma {:induction false} ParseFrameOfFrame(s: string, rest: string)
    ensures ParseFrame(Frame(s) + rest) == Some((s, rest))
  {
    if s != [] {
      var t := Frame(s) + rest;
      var code := CharCode(s[0]);
      ParseFrameOfFrame(s[1..], rest);
      assert t == code + (Frame(s[1..]) + rest);
      assert t[0] == code[0] && IsHexDigit(code[0]);
      assert t[..CharWidth] == code;
      assert t[CharWidth..] == Frame(s[1..]) + rest;
      HexValueOfHex(s[0] as int, CharWidth);
      assert (HexValue(code) as char) == s[0];
      assert [s[0]] + s[1..] == s;
    }
  }

  /** The fields in order, each framed. */
  function Frames(fields: seq<string>): (t: string)
    ensures forall i :: 0 <= i < |t| ==> TokenChar(t[i])
  {
    if fields == [] then [] else Frame(fields[0]) + Frames(fields[1..])
  }

  /** Splits a whole token into its fields; fails unless every character is used. */
  function SplitFrames(t: string): (r: Option<seq<string>>)
    ensures r.Some? ==> t == Frames(r.value)
    decreases |t|
  {
    if t == [] then Some([])
    else
      match ParseFrame(t)
      case None => None
      case Some((field, rest)) =>
        match SplitFrames(rest)
        case None => None
        case Some(fields) =>
          assert ([field] + fields)[1..] == fields;
          Some([field] + fields)
  }

  lemma {:induction false} SplitFramesOfFrames(fields: seq<string>)
    ensures SplitFrames(Frames(fields)) == Some(fields)
  {
    if fields != [] {
      ParseFrameOfFrame(fields[0], Frames(fields[1..]));
      SplitFramesOfFrames(fields[1..]);
      assert Frame(fields[0]) != [];
      assert [fields[0]] + fields[1..] == fields;
    }
  }

  /** The decimal digit `d`. */
  function DigitChar(d: nat): char
    requires d < 10
  {
    ('0' as int + d) as char
  }

  /** Decimal notation of a natural number, without leading zeros. */
  function NatToDecimal(n: nat): (s: string)
    ensures |s| > 0 && '0' <= s[0] <= '9'
  {
    if n < 10 then [DigitChar(n)] else NatToDecimal(n / 10) + [DigitChar(n % 10)]
  }

  /** The value of a digit string read left to right. */
  function DigitsValue(s: string): int
  {
    if s == [] then 0 else 10 * DigitsValue(s[..|s| - 1]) + (s[|s| - 1] as int - '0' as int)
  }

  lemma {:induction false} DigitsValueOfNat(n: nat)
    ensures DigitsValue(NatToDecimal(n)) == n
  {
    if n >= 10 {
      DigitsValueOfNat(n / 10);
      var s := NatToDecimal(n);
      assert s[..|s| - 1] == NatToDecimal(n / 10);
    }
  }

  /** An `i64` as JSON writes it. */
  function IntToDecimal(n: int): string
  {
    if n < 0 then "-" + NatToDecimal(-n) else NatToDecimal(n)
  }

  /** Reads an integer written as `IntToDecimal` writes it, and nothing else. */
  function DecimalToInt(t: string): (r: Option<int>)
    ensures r.Some? ==> IntToDecimal(r.value) == t
  {
    var n := if |t| > 1 && t[0] == '-' then -DigitsValue(t[1..]) else DigitsValue(t);
    if IntToDecimal(n) == t then Some(n) else None
  }

  lemma DecimalToIntOfInt(n: int)
    ensures DecimalToInt(IntToDecimal(n)) == Some(n)
  {
    var t := IntToDecimal(n);
    if n < 0 {
      DigitsValueOfNat(-n);
      assert t[1..] == NatToDecimal(-n);
    } else {
      DigitsValueOfNat(n);
    }
  }

  /**
   * `encode`: the claims' fields, then a signature that only `secret`
   * reproduces. Whatever the secret and claims, the token is header-safe text.
   */
  function Encode(secret: string, c: Claims): (token: string)
    ensures forall i :: 0 <= i < |token| ==> TokenChar(token[i])
  {
    Frames([c.sub, IntToDecimal(c.exp), c.userId, secret])
  }

  /**
   * `decode` with `Validation::default()`: a malformed token, a signature made
   * under another secret, an unreadable expiry and an expiry more than
   * `leeway` seconds before `now` are each an error; otherwise the claims.
   */
  function Decode(secret: string, token: string, now: int, leeway: nat): (r: Result<Claims, JwtErrorKind>)
    ensures r.Ok? ==> token == Encode(secret, r.value) && r.value.exp >= now - leeway
  {
    match SplitFrames(token)
    case None => Err(InvalidToken)
    case Some(fields) =>
      if |fields| != 4 then Err(InvalidToken)
      else if fields[3] != secret then Err(InvalidSignature)
      else
        match DecimalToInt(fields[1])
        case None => Err(JsonFormat)
        case Some(exp) =>
          if exp < now - leeway then Err(ExpiredSignature)
          else
            var c := Claims(fields[0], exp, fields[2]);
            assert fields == [c.sub, IntToDecimal(c.exp), c.userId, secret];
            Ok(c)
  }

  /** Round trip: a token decodes under its own secret to its claims until it expires. */
  lemma DecodeEncode(secret: string, c: Claims, now: int, leeway: nat)
    ensures Decode(secret, Encode(secret, c), now, leeway)
            == if c.exp < now - leeway then Err(ExpiredSignature) else Ok(c)
  {
    SplitFramesOfFrames([c.sub, IntToDecimal(c.exp), c.userId, secret]);
    DecimalToIntOfInt(c.exp);
  }

  /** A token never decodes under a secret other than the one that signed it. */
  lemma DecodeWrongSecret(signer: string, secret: string, c: Claims, now: int, leeway: nat)
    requires signer != secret
    ensures Decode(secret, Encode(signer, c), now, leeway) == Err(InvalidSignature)
  {
    SplitFramesOfFrames([c.sub, IntToDecimal(c.exp), c.userId, signer]);
  }

  /** Different claims or secrets give different tokens. */
  lemma EncodeInjective(s1: string, c1: Claims, s2: string, c2: Claims)
    requires Encode(s1, c1) == Encode(s2, c2)
    ensures s1 == s2 && c1 == c2
  {
    SplitFramesOfFrames([c1.sub, IntToDecimal(c1.exp), c1.userId, s1]);
    SplitFramesOfFrames([c2.sub, IntToDecimal(c2.exp), c2.userId, s2]);
    DecimalToIntOfInt(c1.exp);
    DecimalToIntOfInt(c2.exp);
  }

  // ---------------------------------------------------------------------------
  // jwt.rs proper.

  /** The claims of the access token issued to `auth` at `now`. */
  function AccessClaims(auth: Auth, now: Time): (c: Claims)
    ensures c.sub == auth.userId && c.userId == auth.userId
    ensures c.exp == Timestamp(now) + 1800
  {
    TimestampShift(now, AccessLifetimeSeconds);
    Claims(auth.userId, Timestamp(now + AccessLifetimeSeconds * NanosPerSecond), auth.userId)
  }

  /** The claims of the refresh token issued to `auth` at `now`. */
  function RefreshClaims(auth: Auth, now: Time): (c: Claims)
    ensures c.sub == auth.userId && c.userId == auth.userId
    ensures c.exp == Timestamp(now) + 1209600
  {
    TimestampShift(now, RefreshLifetimeSeconds);
    Claims(auth.userId, Timestamp(now + RefreshLifetimeSeconds * NanosPerSecond), auth.userId)
  }

  /**
   * `generate_tokens`: an access token under the access secret and a refresh
   * token under the refresh secret, for the same subject.
   */
  function GenerateTokens(auth: Auth, now: Time, secrets: Secrets): (t: Tokens)
    ensures DecodeAccessToken(t.accessToken, secrets, now) == Ok(AccessClaims(auth, now))
    ensures DecodeRefreshToken(t.refreshToken, secrets, now) == Ok(RefreshClaims(auth, now))
  {
    DecodeEncode(secrets.accessTokenSecret, AccessClaims(auth, now), Timestamp(now), DefaultLeeway);
    DecodeEncode(secrets.refreshTokenSecret, RefreshClaims(auth, now), Timestamp(now), DefaultLeeway);
    Tokens(Encode(secrets.accessTokenSecret, AccessClaims(auth, now)),
           Encode(secrets.refreshTokenSecret, RefreshClaims(auth, now)))
  }

  /** `decode_access_token`: decoding under the access secret, read at `now`. */
  function DecodeAccessToken(token: string, secrets: Secrets, now: Time): (r: Result<Claims, JwtErrorKind>)
    ensures r.Ok? ==> token == Encode(secrets.accessTokenSecret, r.value)
    ensures r.Ok? ==> r.value.exp >= Timestamp(now) - DefaultLeeway
  {
    Decode(secrets.accessTokenSecret, token, Timestamp(now), DefaultLeeway)
  }

  /** `decode_refresh_token`: decoding under the refresh secret, read at `now`. */
  function DecodeRefreshToken(token: string, secrets: Secrets, now: Time): (r: Result<Claims, JwtErrorKind>)
    ensures r.Ok? ==> token == Encode(secrets.refreshTokenSecret, r.value)
    ensures r.Ok? ==> r.value.exp >= Timestamp(now) - DefaultLeeway
  {
    Decode(secrets.refreshTokenSecret, token, Timestamp(now), DefaultLeeway)
  }

  /** Issued at one instant, the refresh token outlives the access token by two weeks less 30 minutes. */
  lemma RefreshOutlivesAccess(auth: Auth, now: Time)
    ensures RefreshClaims(auth, now).exp - AccessClaims(auth, now).exp == 1209600 - 1800
    ensures RefreshClaims(auth, now).exp > AccessClaims(auth, now).exp
  {
  }

  /** A freshly issued access token decodes to its claims until 30 minutes (plus leeway) later. */
  lemma GeneratedAccessTokenDecodes(auth: Auth, issued: Time, secrets: Secrets, later: Time)
    requires Timestamp(later) <= Timestamp(issued) + 1800 + DefaultLeeway
    ensures DecodeAccessToken(GenerateTokens(auth, issued, secrets).accessToken, secrets, later)
            == Ok(AccessClaims(auth, issued))
  {
    DecodeEncode(secrets.accessTokenSecret, AccessClaims(auth, issued), Timestamp(later), DefaultLeeway);
  }

  /** A freshly issued refresh token decodes to its claims until two weeks (plus leeway) later. */
  lemma GeneratedRefreshTokenDecodes(auth: Auth, issued: Time, secrets: Secrets, later: Time)
    requires Timestamp(later) <= Timestamp(issued) + 1209600 + DefaultLeeway
    ensures DecodeRefreshToken(GenerateTokens(auth, issued, secrets).refreshToken, secrets, later)
            == Ok(RefreshClaims(auth, issued))
  {
    DecodeEncode(secrets.refreshTokenSecret, RefreshClaims(auth, issued), Timestamp(later), DefaultLeeway);
  }

  /** Past its expiry and the leeway, an access token is refused as expired. */
  lemma GeneratedAccessTokenExpires(auth: Auth, issued: Time, secrets: Secrets, later: Time)
    requires Timestamp(later) > Timestamp(issued) + 1800 + DefaultLeeway
    ensures DecodeAccessToken(GenerateTokens(auth, issued, secrets).accessToken, secrets, later)
            == Err(ExpiredSignature)
  {
    DecodeEncode(secrets.accessTokenSecret, AccessClaims(auth, issued), Timestamp(later), DefaultLeeway);
  }

  /**
   * Decoding looks only at the secret: when the two secrets are equal (as
   * they are by default), an access token passes as a refresh token.
   */
  lemma AccessTokenPassesAsRefreshWhenSecretsEqual(auth: Auth, issued: Time, secrets: Secrets, later: Time)
    requires secrets.accessTokenSecret == secrets.refreshTokenSecret
    requires Timestamp(later) <= Timestamp(issued) + 1800 + DefaultLeeway
    ensures DecodeRefreshToken(GenerateTokens(auth, issued, secrets).accessToken, secrets, later)
            == Ok(AccessClaims(auth, issued))
  {
    DecodeEncode(secrets.accessTokenSecret, AccessClaims(auth, issued), Timestamp(later), DefaultLeeway);
  }

  /**
   * The other direction: with equal secrets a refresh token passes the access
   * decoder for its whole two-week life, so the 30-minute access lifetime
   * bounds nothing.
   */
  lemma RefreshTokenPassesAsAccessWhenSecretsEqual(auth: Auth, issued: Time, secrets: Secrets, later: Time)
    requires secrets.accessTokenSecret == secrets.refreshTokenSecret
    requires Timestamp(later) <= Timestamp(issued) + 1209600 + DefaultLeeway
    ensures DecodeAccessToken(GenerateTokens(auth, issued, secrets).refreshToken, secrets, later)
            == Ok(RefreshClaims(auth, issued))
  {
    DecodeEncode(secrets.refreshTokenSecret, RefreshClaims(auth, issued), Timestamp(later), DefaultLeeway);
  }

  /** With distinct secrets, neither class of token decodes as the other. */
  lemma TokenClassesSeparateWhenSecretsDiffer(auth: Auth, issued: Time, secrets: Secrets, later: Time)
    requires secrets.accessTokenSecret != secrets.refreshTokenSecret
    ensures DecodeRefreshToken(GenerateTokens(auth, issued, secrets).accessToken, secrets, later)
            == Err(InvalidSignature)
    ensures DecodeAccessToken(GenerateTokens(auth, issued, secrets).refreshToken, secrets, later)
            == Err(InvalidSignature)
  {
    DecodeWrongSecret(secrets.accessTokenSecret, secrets.refreshTokenSecret,
                      AccessClaims(auth, issued), Timestamp(later), DefaultLeeway);
    DecodeWrongSecret(secrets.refreshTokenSecret, secrets.accessTokenSecret,
                      RefreshClaims(auth, issued), Timestamp(later), DefaultLeeway);
  }

  /**
   * The claims carry no nonce: two issues for the same user with the same
   * secrets give the same refresh token exactly when they fall in the same second.
   */
  lemma GenerateTokensDeterministic(auth: Auth, t1: Time, t2: Time, secrets: Secrets)
    ensures Timestamp(t1) == Timestamp(t2) ==> GenerateTokens(auth, t1, secrets) == GenerateTokens(auth, t2, secrets)
    ensures GenerateTokens(auth, t1, secrets).refreshToken == GenerateTokens(auth, t2, secrets).refreshToken
            <==> Timestamp(t1) == Timestamp(t2)
  {
    if GenerateTokens(auth, t1, secrets).refreshToken == GenerateTokens(auth, t2, secrets).refreshToken {
      EncodeInjective(secrets.refreshTokenSecret, RefreshClaims(auth, t1),
                      secrets.refreshTokenSecret, RefreshClaims(auth, t2));
    }
  }
}
