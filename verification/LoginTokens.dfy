/** What a completed login proves about its user, with the program's own token check in place. */
module LoginTokens {
  import opened Common
  import opened Login
  import opened LoginProofs
  import opened LoginRuns
  import opened Surroundings
  import opened JsonGrammar
  import Grants
  import IdTokens
  import Requests

  /** The login's nonce, issuer and client are in the token's own signed claims, and its subject is
      the one on record. */
  ghost predicate Proves(tools: IdTokens.Tools, now: Option<nat>, keys: Value, owner: App, nonce: string,
                         t: Grants.Tokens, said: Value, e: IdTokens.Evidence)
  {
    && t.idToken.Some? && IdTokens.Signed(tools, now, keys, t.idToken.value, said, e)
    && IdTokens.ClaimsHold(said, tools.asU64, now, Requests.StringBytes(owner.issuer),
                           Requests.StringBytes(owner.clientId), Some(Requests.StringBytes(nonce)))
    && t.verifiedSubject.Some? && t.verifiedSubject.value != []
    && Grants.Get(said, "sub") == Some(String(t.verifiedSubject.value))
  }

  lemma EarnedProves(b: Birth, tools: IdTokens.Tools, n: nat, fetched: bool, t: Grants.Tokens)
      returns (said: Value, e: IdTokens.Evidence)
    requires RealTokens(b.laws, tools) && Earned(b, n, fetched, t)
    ensures Proves(tools, CheckTime(b, n, fetched), CheckKeys(b, n, fetched), b.owner, b.opening.nonce,
                   t, said, e)
  {
    hide IdTokens.VerifyIdToken, IdTokens.KeyKnown, IdTokens.Signed, IdTokens.NamesClient,
      IdTokens.InForce, Requests.StringBytes, Grants.Get, GrantAt, CheckTime, CheckKeys;
    var now, keys, nonce := CheckTime(b, n, fetched), CheckKeys(b, n, fetched), b.opening.nonce;
    var issuer, client := Requests.StringBytes(b.owner.issuer), Requests.StringBytes(b.owner.clientId);
    var r := IdTokens.VerifyIdToken(tools, now, keys, t.idToken.value, issuer, client,
                                    NonceBytes(Some(nonce)));
    assert b.laws.verify(now, keys, t.idToken.value, b.owner.issuer, b.owner.clientId, Some(nonce)) ==
           SubjectOf(r);
    said := r.value;
    e := IdTokens.VerifiedIsSigned(tools, now, keys, t.idToken.value, issuer, client,
                                   NonceBytes(Some(nonce)));
  }

  /** Every completed login, in every run, proves its user: its ID token is three parts that decode;
      an eligible key among those the client had when it checked signed it; the signed claims name
      the login's own issuer, client and nonce and were in force then; and their non-empty subject is
      the one recorded. The client had the keys it opened with, another login's, or those of the
      success reply to a request right after the code's, made exactly when the token's was missing. */
  lemma CompletionProves(laws: Laws, tools: IdTokens.Tools, opening: Opening, calls: seq<Call>,
                         owner: App, k: nat)
      returns (j: nat, said: Value, e: IdTokens.Evidence)
    requires AtHome(calls, owner) && RealTokens(laws, tools)
    requires var log := Played(laws, opening, calls).log;
             k < |log| && IsComplete(log[k])
    ensures var b, log := Birth(laws, owner, opening), Played(laws, opening, calls).log;
            var t := log[k].reply.value.tokens;
            && j < k && log[j].CodeAsked? && log[j].n == RequestCount(log[..j])
            && (k == j + 1 || (k == j + 2 && log[j + 1] == KeysAsked(log[j].n + 1)))
            && Proves(tools, CheckTime(b, log[j].n, k == j + 2), CheckKeys(b, log[j].n, k == j + 2), owner,
                      opening.nonce, t, said, e)
            && IdTokens.KeyKnown(tools, FirstKeys(b), t.idToken.value) == Ok(k == j + 1)
            && (k == j + 2 ==> FetchedAt(laws, log[j].n + 1).Some?)
  {
    hide Played, Proves, IdTokens.KeyKnown, IdTokens.VerifyIdToken, GrantAt, CheckTime, CheckKeys;
    j := CompletionIsVouched(laws, opening, calls, owner, k);
    var log := Played(laws, opening, calls).log;
    said, e := EarnedProves(Birth(laws, owner, opening), tools, log[j].n, k == j + 2,
                            log[k].reply.value.tokens);
  }

  /** A redeemed code came with a success response holding an access token and an ID token. */
  lemma RedeemedIsGranted(laws: Laws, tools: IdTokens.Tools, app: App, w: World, code: string)
    requires RealGrants(laws, tools) && Redeem(laws, app, w, code).1.Done?
    ensures var outcome := laws.net(w.awaits).outcome;
            && outcome.Answered? && outcome.status == 200
            && Redeem(laws, app, w, code).1.value.access != []
            && Redeem(laws, app, w, code).1.value.idToken.Some?
  {
    hide Grants.Acquired, Grants.UserInfo, GrantFields;
    var outcome := laws.net(w.awaits).outcome;
    assert laws.grant(true, outcome.status, outcome.body).Ok?;
    Grants.AcquiredUnverified(outcome.status, outcome.body, true, tools.convert);
  }

  /** Every completed login, in every run, has a bearer access token from the success response to the
      request that its code was sent in, whose own refresh token is the one bound to the session. */
  lemma CompletionIsGranted(laws: Laws, tools: IdTokens.Tools, opening: Opening, calls: seq<Call>,
                            owner: App, k: nat)
      returns (j: nat)
    requires AtHome(calls, owner) && RealGrants(laws, tools)
    requires var log := Played(laws, opening, calls).log;
             k < |log| && IsComplete(log[k])
    ensures var log := Played(laws, opening, calls).log;
            && j < k && log[j].CodeAsked? && log[j].n == RequestCount(log[..j])
            && var outcome := laws.net(log[j].n).outcome;
               var t := log[k].reply.value.tokens;
               && outcome.Answered? && outcome.status == 200 && t.access != []
               && t.verifiedRefresh == t.refresh
               && Grants.GrantsBearer(outcome.body, tools.convert, t)
  {
    hide Played, Grants.Acquired, Grants.UserInfo, Grants.GrantsBearer, CheckTime, CheckKeys;
    j := CompletionIsVouched(laws, opening, calls, owner, k);
    var log := Played(laws, opening, calls).log;
    var outcome := laws.net(log[j].n).outcome;
    Grants.AcquiredUnverified(outcome.status, outcome.body, true, tools.convert);
    Grants.AcquiredBearer(outcome.status, outcome.body, true, tools.convert,
                          log[k].reply.value.tokens);
  }
}
