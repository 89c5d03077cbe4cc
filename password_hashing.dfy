/**
 * An ideal stand-in for the Argon2 wrapper (src/lib/password_hashing.rs).
 * A hash string records its salt and a digest; the digest is modelled by
 * the secret it was computed from, which makes the hash collision-free.
 * The salt is drawn from OS randomness in the source and is a parameter here.
 */
module PasswordHashing {

  import opened Wrappers

  type Salt = nat

  /** A self-describing hash string: salt plus digest. */
  datatype HashString = Argon2(salt: Salt, digest: string)

  /** `verify` would accept `secret` against `h`. */
  predicate Matches(secret: string, h: HashString)
  {
    h.digest == secret
  }

  /** Collision freedom: one hash string matches at most one secret. */
  lemma MatchesInjective(p: string, q: string, h: HashString)
    requires Matches(p, h) && Matches(q, h)
    ensures p == q
  {
  }

  /** `hash`: a fresh hash under the given salt that matches exactly its secret. */
  function Hash(secret: string, salt: Salt): (h: HashString)
    ensures Matches(secret, h)
    ensures forall other :: Matches(other, h) <==> other == secret
    ensures h.salt == salt
  {
    Argon2(salt, secret)
  }

  /** The mismatch error of `password_hash::Error`. */
  datatype HashError = PasswordMismatch

  /** `verify`: succeeds exactly when the secret matches the hash. */
  function Verify(secret: string, h: HashString): (r: Result<(), HashError>)
    ensures r.Ok? <==> Matches(secret, h)
  {
    if Matches(secret, h) then Ok(()) else Err(PasswordMismatch)
  }
}
