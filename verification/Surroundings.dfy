/** What a login's parameters really are, as far as this program says: its form limit, its reading of
    grants and user information, and its check of ID tokens. Signatures, base64 and numbers stay the
    libraries' own. */
module Surroundings {
  import opened Common
  import opened Utf8
  import opened Login
  import opened JsonGrammar
  import Grants
  import IdTokens
  import Requests

  function SubjectOf(r: Result<Value>): Result<Option<Bytes>> {
    match r
    case Ok(claims) => Ok(Grants.TextOf(Grants.Get(claims, "sub")))
    case Err(e) => Err(e)
  }

  function NonceBytes(nonce: Option<string>): Option<Bytes> {
    match nonce case Some(n) => Some(Requests.StringBytes(n)) case None => None
  }

  ghost predicate RealForms(laws: Laws) {
    forall fields :: laws.fits(fields) <==> Requests.Fits(fields)
  }

  ghost predicate RealGrants(laws: Laws, tools: IdTokens.Tools) {
    && (forall required, status, body ::
         laws.grant(required, status, body) == Grants.Acquired(status, body, required, tools.convert))
    && (forall status, body ::
         laws.user(status, body) == SubjectOf(Grants.UserInfo(status, body, tools.convert)))
  }

  ghost predicate RealTokens(laws: Laws, tools: IdTokens.Tools) {
    && (forall keys, token :: laws.keyKnown(keys, token) == IdTokens.KeyKnown(tools, keys, token))
    && (forall now, keys, token, issuer, client, nonce ::
         laws.verify(now, keys, token, issuer, client, nonce) ==
         SubjectOf(IdTokens.VerifyIdToken(tools, now, keys, token, Requests.StringBytes(issuer),
                                          Requests.StringBytes(client), NonceBytes(nonce))))
  }
}
