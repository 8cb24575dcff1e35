/** Token grants: what a token endpoint's response is taken to mean. */
module Grants {
  import opened Common
  import opened Utf8
  import opened JsonGrammar
  import opened JsonReading
  import opened Requests

  /** A grant's tokens and, once the ID token was checked, who they are for: its subject, issuer and
      client, and the refresh token that may continue that session. */
  datatype Tokens = Tokens(
    access: Bytes,
    refresh: Option<Bytes>,
    idToken: Option<Bytes>,
    verifiedSubject: Option<Bytes>,
    verifiedIssuer: Option<string>,
    verifiedClient: Option<string>,
    verifiedRefresh: Option<Bytes>)

  function Get(v: Value, name: string): Option<Value> {
    if v.Object? && StringBytes(name) in v.members then Some(v.members[StringBytes(name)]) else None
  }

  function TextOf(v: Option<Value>): Option<Bytes> {
    if v.Some? && v.value.String? then Some(v.value.text) else None
  }

  /** The value is an object with this member. */
  predicate Says(v: Value, name: string, said: Value) {
    v.Object? && StringBytes(name) in v.members && v.members[StringBytes(name)] == said
  }

  /** The value has no member of this name. */
  predicate Silent(v: Value, name: string) {
    !v.Object? || StringBytes(name) !in v.members
  }

  function LowerByte(b: byte): byte {
    if 0x41 <= b <= 0x5A then b + 0x20 else b
  }

  function LowerBytes(s: Bytes): Bytes {
    seq(|s|, i requires 0 <= i < |s| => LowerByte(s[i]))
  }

  predicate Refused(status: nat) {
    status == 400 || status == 401 || status == 403
  }

  function GrantError(status: nat, body: Bytes, convert: Convert): Error {
    var parsed := ReadText(body, convert);
    var code := if parsed.Some? then TextOf(Get(parsed.value, "error")) else None;
    if code == Some(StringBytes("invalid_grant")) || code == Some(StringBytes("access_denied")) then
      AuthenticationRejected
    else if || code == Some(StringBytes("invalid_client"))
            || code == Some(StringBytes("unauthorized_client"))
            || code == Some(StringBytes("unsupported_grant_type"))
            || code == Some(StringBytes("invalid_request")) then
      InvalidConfiguration("Keycloak rejected the client or requested grant")
    else if status == 401 || status == 403 then AuthenticationRejected
    else HttpStatus(status)
  }

  /** A token that may be missing or null, but nothing else than a string. */
  function OptionalToken(v: Value, name: string): Result<Option<Bytes>> {
    match Get(v, name)
    case None => Ok(None)
    case Some(Null) => Ok(None)
    case Some(String(text)) => Ok(Some(text))
    case _ => Err(Protocol("invalid token response"))
  }

  function TokensIn(v: Value, requireIdToken: bool): Result<Tokens> {
    var access, kind := TextOf(Get(v, "access_token")), TextOf(Get(v, "token_type"));
    var refresh, idToken := OptionalToken(v, "refresh_token"), OptionalToken(v, "id_token");
    if access.None? || kind.None? || refresh.Err? || idToken.Err? then
      Err(Protocol("invalid token response"))
    else if LowerBytes(kind.value) != StringBytes("bearer") || access.value == [] then
      Err(Protocol("unexpected token type"))
    else if requireIdToken && idToken.value.None? then
      Err(Protocol("token response has no ID token"))
    else Ok(Tokens(access.value, refresh.value, idToken.value, None, None, None, None))
  }

  /** The tokens in a grant response, none of them verified yet. */
  function Acquired(status: nat, body: Bytes, requireIdToken: bool, convert: Convert)
    : Result<Tokens>
  {
    if Refused(status) then Err(GrantError(status, body, convert))
    else if status != 200 then Err(HttpStatus(status))
    else
      match ReadText(body, convert)
      case None => Err(Protocol("invalid token response"))
      case Some(v) => TokensIn(v, requireIdToken)
  }

  /** The user information in a response. */
  function UserInfo(status: nat, body: Bytes, convert: Convert): Result<Value> {
    if status == 401 then Err(AuthenticationRejected)
    else if status != 200 then Err(HttpStatus(status))
    else
      match ReadText(body, convert)
      case None => Err(Protocol("invalid userinfo response"))
      case Some(v) => Ok(v)
  }

  /** Tokens come only from a success that holds an access token, nothing about them is verified
      yet, and an ID token that was required is there. */
  lemma AcquiredUnverified(status: nat, body: Bytes, requireIdToken: bool, convert: Convert)
    requires Acquired(status, body, requireIdToken, convert).Ok?
    ensures var t := Acquired(status, body, requireIdToken, convert).value;
            && status == 200 && t.access != []
            && t.verifiedSubject.None? && t.verifiedRefresh.None?
            && (requireIdToken ==> t.idToken.Some?)
  {
    hide ReadText, GrantError, StringBytes, OptionalToken, LowerBytes;
  }

  /** The response body is a JSON object with these tokens in it and a bearer token type. */
  predicate GrantsBearer(body: Bytes, convert: Convert, t: Tokens) {
    var parsed := ReadText(body, convert);
    && parsed.Some?
    && Get(parsed.value, "access_token") == Some(String(t.access))
    && TextOf(Get(parsed.value, "token_type")).Some?
    && LowerBytes(TextOf(Get(parsed.value, "token_type")).value) == StringBytes("bearer")
    && (t.refresh.Some? ==> Get(parsed.value, "refresh_token") == Some(String(t.refresh.value)))
    && (t.idToken.Some? ==> Get(parsed.value, "id_token") == Some(String(t.idToken.value)))
  }

  lemma AcquiredBearer(status: nat, body: Bytes, requireIdToken: bool, convert: Convert, t: Tokens)
    requires Acquired(status, body, requireIdToken, convert).Ok?
    requires var granted := Acquired(status, body, requireIdToken, convert).value;
             t.access == granted.access && t.refresh == granted.refresh && t.idToken == granted.idToken
    ensures GrantsBearer(body, convert, t)
  {
    hide ReadText, GrantError, StringBytes, LowerBytes, Get;
  }

  /** Two texts are the same but for the case of ASCII letters. */
  predicate SameButCase(a: Bytes, b: Bytes) {
    && |a| == |b|
    && forall i :: 0 <= i < |a| ==>
         || a[i] == b[i]
         || (0x41 <= a[i] <= 0x5A && b[i] == a[i] + 0x20)
         || (0x41 <= b[i] <= 0x5A && a[i] == b[i] + 0x20)
  }

  /** A member that may be missing or null holds this token, or no token at all. */
  ghost predicate MayHold(v: Value, name: string, token: Option<Bytes>) {
    match token
    case Some(text) => Says(v, name, String(text))
    case None => Silent(v, name) || Says(v, name, Null)
  }

  lemma OptionalMeans(v: Value, name: string, token: Option<Bytes>)
    ensures OptionalToken(v, name) == Ok(token) <==> MayHold(v, name, token)
  {
    hide StringBytes;
  }

  lemma BearerBytes()
    ensures StringBytes("bearer") == [0x62, 0x65, 0x61, 0x72, 0x65, 0x72]
  {
    assert "bearer"[1..] == "earer" && "earer"[1..] == "arer" && "arer"[1..] == "rer";
    assert "rer"[1..] == "er" && "er"[1..] == "r" && "r"[1..] == "";
    assert StringBytes("r") == [0x72] && StringBytes("er") == [0x65, 0x72];
    assert StringBytes("rer") == [0x72, 0x65, 0x72] && StringBytes("arer") == [0x61, 0x72, 0x65, 0x72];
  }

  lemma BearerMeans(kind: Bytes)
    ensures LowerBytes(kind) == StringBytes("bearer") <==>
            SameButCase(kind, [0x62, 0x65, 0x61, 0x72, 0x65, 0x72])
  {
    hide StringBytes;
    BearerBytes();
    var bearer: Bytes := [0x62, 0x65, 0x61, 0x72, 0x65, 0x72];
    if LowerBytes(kind) == bearer {
      forall i | 0 <= i < |kind| ensures LowerByte(kind[i]) == bearer[i] {
        assert LowerBytes(kind)[i] == bearer[i];
      }
    }
    if SameButCase(kind, bearer) {
      assert forall i :: 0 <= i < |kind| ==> LowerByte(kind[i]) == bearer[i];
    }
  }

  /** A response grants tokens exactly when its status is 200 and its body is a JSON object with a
      non-empty access token, the token type "bearer" in any case, and refresh and ID tokens that are
      texts, null or missing, the ID token a text where it is required; and those are the tokens, not yet
      verified for anyone. */
  lemma AcquiredExactly(status: nat, body: Bytes, required: bool, convert: Convert, t: Tokens)
    ensures Acquired(status, body, required, convert) == Ok(t) <==>
            && status == 200 && ReadText(body, convert).Some?
            && var v := ReadText(body, convert).value;
               && t.access != [] && Says(v, "access_token", String(t.access))
               && (exists kind :: Says(v, "token_type", String(kind))
                     && SameButCase(kind, [0x62, 0x65, 0x61, 0x72, 0x65, 0x72]))
               && MayHold(v, "refresh_token", t.refresh) && MayHold(v, "id_token", t.idToken)
               && (required ==> t.idToken.Some?)
               && t.verifiedSubject.None? && t.verifiedIssuer.None? && t.verifiedClient.None?
               && t.verifiedRefresh.None?
  {
    hide ReadText, GrantError, StringBytes, OptionalToken, LowerBytes, MayHold, SameButCase;
    if ReadText(body, convert).Some? {
      var v := ReadText(body, convert).value;
      OptionalMeans(v, "refresh_token", t.refresh);
      OptionalMeans(v, "id_token", t.idToken);
      if TextOf(Get(v, "token_type")).Some? {
        BearerMeans(TextOf(Get(v, "token_type")).value);
      }
      TextMeans(v, "token_type");
      TextMeans(v, "access_token");
    }
  }

  lemma TextMeans(v: Value, name: string)
    ensures forall text :: TextOf(Get(v, name)) == Some(text) <==> Says(v, name, String(text))
  {
    hide StringBytes;
  }
}
