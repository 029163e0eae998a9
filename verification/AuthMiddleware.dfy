/** The token gate put in front of protected routes. It reads only the
    `x-auth-token` header, the signing secret and the clock, never the user
    collection. */
module AuthMiddleware {
  import opened Wrappers
  import opened Crypto
  import opened Http

  const NoTokenMessage := "No token, authorization denied"
  const InvalidTokenMessage := "Token is not valid"

  /** Either the gate answers the request itself, or it sets `req.user` and calls
      `next` exactly once. */
  datatype GateResult = Deny(response: Response) | Next(user: Principal)

  /** `!token`: the header is missing or empty. */
  predicate IsAbsent(header: Option<Token>) {
    header.None? || header == Some(Malformed(""))
  }

  /** The gate: 401 for a missing token, 401 with one message for every token that
      does not verify, whatever the reason; otherwise the decoded `user` claim. */
  function Gate(header: Option<Token>, env: Env): (g: GateResult)
    ensures IsAbsent(header) ==> g == Deny(Message(401, NoTokenMessage))
    ensures !IsAbsent(header) && Verify(header.value, env.secret, env.now).None? ==>
              g == Deny(Message(401, InvalidTokenMessage))
    ensures g.Deny? ==> g.response.status == 401 && g.response.user.None?
    ensures g.Next? <==> header.Some? && Verify(header.value, env.secret, env.now).Some?
    ensures g.Next? ==> header == Some(Sign(header.value.claims, env.secret))
                        && env.now < header.value.claims.exp
                        && g.user == header.value.claims.user
  {
    if IsAbsent(header) then
      Deny(Message(401, NoTokenMessage))
    else
      match Verify(header.value, env.secret, env.now)
      case None => Deny(Message(401, InvalidTokenMessage))
      case Some(decoded) => Next(decoded.user)
  }

  /** A token the server issued passes the gate with its principal until it expires,
      and is refused as invalid from then on. */
  lemma GateAcceptsIssuedToken(user: Principal, issuedAt: int, env: Env)
    ensures env.now < issuedAt + TokenLifetime ==>
              Gate(Some(Issue(user, env.secret, issuedAt)), env) == Next(user)
    ensures issuedAt + TokenLifetime <= env.now ==>
              Gate(Some(Issue(user, env.secret, issuedAt)), env) == Deny(Message(401, InvalidTokenMessage))
  {
    IssuedTokenLifetime(user, env.secret, issuedAt, env.now);
  }

  /** A token signed with any other key, or any non-empty string that is not a
      token, is refused with the same response. */
  lemma GateRejectsForeignTokens(claims: Claims, key: string, text: string, env: Env)
    requires key != env.secret && text != ""
    ensures Gate(Some(Sign(claims, key)), env) == Deny(Message(401, InvalidTokenMessage))
    ensures Gate(Some(Malformed(text)), env) == Gate(Some(Sign(claims, key)), env)
  {
  }
}
