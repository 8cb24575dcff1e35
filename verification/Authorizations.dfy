/** What an authorization request asks for. */
module Authorizations {
  import opened Common
  import opened Urls
  import opened LoginRuns
  import Endpoints
  import Login

  /** The parameter at `i` is the only one of its name when no other has it. */
  lemma OnlyAt(query: seq<(string, string)>, i: nat)
    requires i < |query| && forall j :: 0 <= j < |query| && query[j].0 == query[i].0 ==> j == i
    ensures Only(query, query[i].0, query[i].1)
  {
    assert query[i] == (query[i].0, query[i].1);
  }

  /** The names a login appends, in order. */
  function AskedNames(hinted: bool): seq<string> {
    ["response_type", "client_id", "redirect_uri", "scope", "code_challenge",
     "code_challenge_method", "state", "nonce"] + if hinted then ["login_hint"] else []
  }

  lemma AskedNamesDiffer(hinted: bool)
    ensures forall i, j :: 0 <= i < j < |AskedNames(hinted)| ==>
              AskedNames(hinted)[i] != AskedNames(hinted)[j]
    ensures forall name <- AskedNames(hinted) :: name in Endpoints.RESERVED
  {
    var n := AskedNames(hinted);
    assert |n[0]| == 13 && |n[1]| == 9 && |n[2]| == 12 && |n[3]| == 5 && |n[4]| == 14 && |n[5]| == 21;
    assert n[6][0] == 's' && n[7][0] == 'n' && n[3][0] == 's' && |n[6]| == 5 && |n[7]| == 5;
    assert n[3][1] == 'c' && n[6][1] == 't';
    assert hinted ==> |n[8]| == 10;
  }

  /** A query whose front holds none of some distinct names, and whose back holds those. */
  predicate Follows(query: seq<(string, string)>, n: nat, names: seq<string>) {
    && |query| == n + |names|
    && (forall j :: 0 <= j < n ==> query[j].0 !in Endpoints.RESERVED)
    && (forall k :: 0 <= k < |names| ==> query[n + k].0 == names[k])
    && (forall i, j :: 0 <= i < j < |names| ==> names[i] != names[j])
    && (forall k :: 0 <= k < |names| ==> names[k] in Endpoints.RESERVED)
  }

  lemma OneOfAppended(query: seq<(string, string)>, n: nat, names: seq<string>, k: nat)
    requires Follows(query, n, names) && k < |names|
    ensures Only(query, names[k], query[n + k].1)
  {
    assert query[n + k].0 == names[k] && names[k] in Endpoints.RESERVED;
    forall j | 0 <= j < |query| && query[j].0 == query[n + k].0 ensures j == n + k {
      if j >= n {
        var i := j - n;
        assert query[n + i].0 == names[i];
      }
    }
    OnlyAt(query, n + k);
  }

  lemma NoneAppended(query: seq<(string, string)>, n: nat, names: seq<string>, name: string)
    requires Follows(query, n, names) && name in Endpoints.RESERVED && name !in names
    ensures Missing(query, name)
  {
    forall j | 0 <= j < |query| ensures query[j].0 != name {
      if j >= n {
        assert query[n + (j - n)].0 == names[j - n];
      }
    }
  }

  lemma AsksForCode(endpoint: Url, p: Endpoints.Request, digest: string -> Result<string>)
    requires Endpoints.AuthorizationUrl(endpoint, p, digest).Ok?
    ensures var query := Endpoints.AuthorizationUrl(endpoint, p, digest).value.query;
            && Only(query, "response_type", "code") && Only(query, "client_id", p.clientId)
            && Only(query, "redirect_uri", p.redirectUri)
            && Only(query, "scope", Endpoints.JoinScopes(Endpoints.NormalScopes(p.scopes)))
  {
    hide Only, Missing, Follows, Endpoints.JoinScopes, Endpoints.NormalScopes,
      Endpoints.ValidVerifier, Endpoints.ValidToken, Endpoints.AllValid;
    var n, query := |endpoint.query|, Endpoints.AuthorizationUrl(endpoint, p, digest).value.query;
    var names := AskedNames(p.loginHint.Some?);
    NamesFollow(endpoint, p, digest);
    OneOfAppended(query, n, names, 0);
    OneOfAppended(query, n, names, 1);
    OneOfAppended(query, n, names, 2);
    OneOfAppended(query, n, names, 3);
  }

  lemma AsksWithSecrets(endpoint: Url, p: Endpoints.Request, digest: string -> Result<string>)
    requires Endpoints.AuthorizationUrl(endpoint, p, digest).Ok?
    ensures var query := Endpoints.AuthorizationUrl(endpoint, p, digest).value.query;
            && digest(p.verifier).Ok? && Only(query, "code_challenge", digest(p.verifier).value)
            && Only(query, "code_challenge_method", "S256")
            && Only(query, "state", p.state) && Only(query, "nonce", p.nonce)
  {
    hide Only, Missing, Follows, Endpoints.JoinScopes, Endpoints.NormalScopes,
      Endpoints.ValidVerifier, Endpoints.ValidToken, Endpoints.AllValid;
    var n, query := |endpoint.query|, Endpoints.AuthorizationUrl(endpoint, p, digest).value.query;
    var names := AskedNames(p.loginHint.Some?);
    NamesFollow(endpoint, p, digest);
    OneOfAppended(query, n, names, 4);
    OneOfAppended(query, n, names, 5);
    OneOfAppended(query, n, names, 6);
    OneOfAppended(query, n, names, 7);
  }

  lemma AsksForUser(endpoint: Url, p: Endpoints.Request, digest: string -> Result<string>)
    requires Endpoints.AuthorizationUrl(endpoint, p, digest).Ok?
    ensures var query := Endpoints.AuthorizationUrl(endpoint, p, digest).value.query;
            && (p.loginHint.Some? ==> Only(query, "login_hint", p.loginHint.value))
            && (p.loginHint.None? ==> Missing(query, "login_hint"))
  {
    hide Only, Missing, Follows, Endpoints.JoinScopes, Endpoints.NormalScopes,
      Endpoints.ValidVerifier, Endpoints.ValidToken, Endpoints.AllValid;
    var n, query := |endpoint.query|, Endpoints.AuthorizationUrl(endpoint, p, digest).value.query;
    var names := AskedNames(p.loginHint.Some?);
    NamesFollow(endpoint, p, digest);
    if p.loginHint.Some? {
      OneOfAppended(query, n, names, 8);
    } else {
      HintIsLast();
      NoneAppended(query, n, names, "login_hint");
    }
  }

  /** The authorization request carries each of the login's parameters exactly once, whatever the
      endpoint's own query: its state, nonce and challenge cannot be shadowed. */
  lemma AsksOnce(endpoint: Url, p: Endpoints.Request, digest: string -> Result<string>)
    requires Endpoints.AuthorizationUrl(endpoint, p, digest).Ok?
    ensures var query := Endpoints.AuthorizationUrl(endpoint, p, digest).value.query;
            && Only(query, "response_type", "code") && Only(query, "client_id", p.clientId)
            && Only(query, "redirect_uri", p.redirectUri)
            && Only(query, "scope", Endpoints.JoinScopes(Endpoints.NormalScopes(p.scopes)))
            && digest(p.verifier).Ok? && Only(query, "code_challenge", digest(p.verifier).value)
            && Only(query, "code_challenge_method", "S256")
            && Only(query, "state", p.state) && Only(query, "nonce", p.nonce)
            && (p.loginHint.Some? ==> Only(query, "login_hint", p.loginHint.value))
            && (p.loginHint.None? ==> Missing(query, "login_hint"))
  {
    hide Only, Missing, Endpoints.AuthorizationUrl;
    AsksForCode(endpoint, p, digest);
    AsksWithSecrets(endpoint, p, digest);
    AsksForUser(endpoint, p, digest);
  }

  lemma HintIsLast()
    ensures "login_hint" !in AskedNames(false)
  {
    AskedNamesDiffer(true);
    assert AskedNames(true)[..8] == AskedNames(false);
    assert AskedNames(true)[8] == "login_hint";
  }

  lemma NamesFollow(endpoint: Url, p: Endpoints.Request, digest: string -> Result<string>)
    requires Endpoints.AuthorizationUrl(endpoint, p, digest).Ok?
    ensures var query := Endpoints.AuthorizationUrl(endpoint, p, digest).value.query;
            Follows(query, |endpoint.query|, AskedNames(p.loginHint.Some?))
  {
    hide Endpoints.JoinScopes, Endpoints.NormalScopes, Endpoints.ValidVerifier,
      Endpoints.ValidToken, Endpoints.AllValid;
    var n, query := |endpoint.query|, Endpoints.AuthorizationUrl(endpoint, p, digest).value.query;
    var names := AskedNames(p.loginHint.Some?);
    AskedNamesDiffer(p.loginHint.Some?);
    assert forall j :: 0 <= j < n ==> query[j] == endpoint.query[j];
    assert forall k :: 0 <= k < |names| ==> query[n + k].0 == names[k];
  }

  /** The code grant names the code, the verifier, the client and the callback exactly once each. */
  lemma GrantNamesOnce(app: Login.App, code: string, verifier: string)
    ensures var fields := Login.GrantFields(app, code, verifier);
            && Only(fields, "grant_type", "authorization_code")
            && Only(fields, "client_id", app.clientId) && Only(fields, "code", code)
            && Only(fields, "redirect_uri", app.redirectText) && Only(fields, "code_verifier", verifier)
  {
    hide Only;
    var fields := Login.GrantFields(app, code, verifier);
    var names := seq(5, i requires 0 <= i < 5 => fields[i].0);
    assert |names[0]| == 10 && |names[1]| == 9 && |names[2]| == 4 && |names[3]| == 12 && |names[4]| == 13;
    OnlyAt(fields, 0);
    OnlyAt(fields, 1);
    OnlyAt(fields, 2);
    OnlyAt(fields, 3);
    OnlyAt(fields, 4);
  }
}
