/** The two cryptographic collaborators of the auth core, as abstract values.
    bcrypt is a one-way hash whose only property used here is that two passwords
    produce matching digests exactly when they are equal (the salt and cost factor
    are not modelled). A JSON Web Token (RFC 7519) is a claims set bound to the key
    it was signed with; verification checks the key and the `exp` claim
    (section 4.1.4 of RFC 7519) and nothing else. */
module Crypto {
  import opened Wrappers

  /** A bcrypt digest of a password. */
  datatype Digest = BcryptDigest(source: string)

  /** `bcrypt.hash`. */
  function Hash(password: string): Digest {
    BcryptDigest(password)
  }

  /** Distinct passwords never share a digest. */
  lemma HashInjective(p: string, q: string)
    ensures Hash(p) == Hash(q) <==> p == q
  {
  }

  /** `bcrypt.compare(candidate, digest)`: re-hashes the candidate and compares. */
  function BcryptCompare(candidate: string, digest: Digest): bool {
    Hash(candidate) == digest
  }

  /** The identity a token carries under its `user` claim: the record id and role. */
  datatype Principal = Principal(id: nat, role: string)

  /** The payload of a session token; `iat` and `exp` are in seconds. */
  datatype Claims = Claims(user: Principal, iat: int, exp: int)

  /** A value of the `x-auth-token` header: either a token signed with some key, or
      any other string, which no key verifies. */
  datatype Token = Signed(claims: Claims, key: string) | Malformed(text: string)

  /** `expiresIn: '1h'`, in seconds. */
  const TokenLifetime: int := 3600

  /** `jwt.sign(payload, key)`. */
  function Sign(claims: Claims, key: string): Token {
    Signed(claims, key)
  }

  /** `jwt.verify(token, secret)` at time `now`: the claims when the token was signed
      with `secret` and has not expired, nothing otherwise. */
  function Verify(token: Token, secret: string, now: int): (r: Option<Claims>)
    ensures r.Some? ==> token == Sign(r.value, secret) && now < r.value.exp
    ensures token.Signed? && token.key == secret && now < token.claims.exp ==> r == Some(token.claims)
  {
    if token.Signed? && token.key == secret && now < token.claims.exp then Some(token.claims) else None
  }

  /** The token signup and signin issue: `{user}` signed with the server secret,
      issued now and expiring one hour later. */
  function Issue(user: Principal, secret: string, now: int): (t: Token)
    ensures t.Signed? && t.claims.user == user && t.claims.exp == now + TokenLifetime
  {
    Sign(Claims(user, now, now + TokenLifetime), secret)
  }

  /** Signing then verifying with the same key gives the claims back until they expire. */
  lemma SignVerifyRoundTrip(claims: Claims, secret: string, now: int)
    ensures Verify(Sign(claims, secret), secret, now) == (if now < claims.exp then Some(claims) else None)
  {
  }

  /** Only tokens signed with the secret verify: a token signed with any other key,
      or any other header string, is rejected. */
  lemma OnlySignedTokensVerify(token: Token, secret: string, now: int)
    requires !(token.Signed? && token.key == secret)
    ensures Verify(token, secret, now) == None
  {
  }

  /** A token issued at `issuedAt` verifies exactly before `issuedAt + 3600`. */
  lemma IssuedTokenLifetime(user: Principal, secret: string, issuedAt: int, now: int)
    ensures Verify(Issue(user, secret, issuedAt), secret, now).Some? <==> now < issuedAt + TokenLifetime
    ensures now < issuedAt + TokenLifetime ==>
              Verify(Issue(user, secret, issuedAt), secret, now).value.user == user
  {
  }
}
