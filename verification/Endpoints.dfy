/** Which discovered endpoints are accepted, and the authorization request built on one. */
module Endpoints {
  import opened Common
  import opened Splitting
  import opened Text
  import opened Urls

  function NonEmpty(pieces: seq<string>): (r: seq<string>)
    ensures "" !in r
  {
    if pieces == [] then []
    else (if pieces[0] == "" then [] else [pieces[0]]) + NonEmpty(pieces[1..])
  }

  /** A path's segments, empty ones left out. */
  function Segments(path: string): (r: seq<string>)
    ensures "" !in r
  {
    NonEmpty(Split(path, '/'))
  }

  function RealmOf(segments: seq<string>): Option<string> {
    var n := |segments|;
    if n >= 2 && segments[n - 2] == "realms" then Some(segments[n - 1]) else None
  }

  /** The realm an issuer's path names: its last segment, when that follows "realms". */
  method IssuerRealm(path: string) returns (r: Option<string>)
    ensures r == RealmOf(Segments(path))
  {
    var segments := Segments(path);
    var previous: Option<string>, last: Option<string> := None, None;
    for i := 0 to |segments|
      invariant last == if i >= 1 then Some(segments[i - 1]) else None
      invariant previous == if i >= 2 then Some(segments[i - 2]) else None
    {
      previous := last;
      last := Some(segments[i]);
    }
    r := if previous == Some("realms") then last else None;
  }

  /** The deepest position of a "realms", `realm` pair. */
  function LastPair(segments: seq<string>, realm: string): (r: Option<nat>)
    ensures r.Some? ==> r.value + 1 < |segments| && segments[r.value] == "realms"
                        && segments[r.value + 1] == realm
    ensures forall k :: 0 <= k < |segments| - 1 && segments[k] == "realms" && segments[k + 1] == realm
              ==> r.Some? && k <= r.value
  {
    var n := |segments|;
    if n < 2 then None
    else if segments[n - 2] == "realms" && segments[n - 1] == realm then Some(n - 2)
    else
      var r := LastPair(segments[..n - 1], realm);
      assert forall k :: 0 <= k < n - 2 && segments[k] == "realms" && segments[k + 1] == realm ==>
          segments[..n - 1][k] == "realms" && segments[..n - 1][k + 1] == realm;
      r
  }

  predicate Harmless(segment: string) {
    segment != "realms" && '%' !in segment
  }

  /** Whether an endpoint's path is under `realm`, with nothing after that could start another. */
  predicate InRealm(segments: seq<string>, realm: string) {
    match LastPair(segments, realm)
    case None => false
    case Some(at) => forall s <- segments[at + 2..] :: Harmless(s)
  }

  /** Behind a realm's own pair, harmless segments leave that pair the deepest one. */
  lemma HarmlessAppended(front: seq<string>, back: seq<string>, realm: string)
    requires RealmOf(front) == Some(realm) && forall s <- back :: Harmless(s)
    ensures InRealm(front + back, realm)
  {
    var all, n := front + back, |front|;
    assert all[n - 2] == "realms" && all[n - 1] == realm;
    var at := LastPair(all, realm).value;
    assert forall k :: n <= k < |all| ==> all[k] in back;
    assert at <= n - 2;
    assert all[n..] == back;
  }

  /** An issuer's path followed by harmless segments is accepted for the issuer's realm. */
  lemma IssuerPathAccepted(path: string, more: string)
    requires RealmOf(Segments(path)).Some?
    requires forall s <- Segments(more) :: Harmless(s)
    ensures InRealm(Segments(path + "/" + more), RealmOf(Segments(path)).value)
  {
    SegmentsJoin(path, more);
    HarmlessAppended(Segments(path), Segments(more), RealmOf(Segments(path)).value);
  }

  lemma NonEmptyCons(piece: string, rest: seq<string>)
    ensures NonEmpty([piece] + rest) == (if piece == "" then [] else [piece]) + NonEmpty(rest)
  {
    assert ([piece] + rest)[1..] == rest;
  }

  lemma {:induction false} NonEmptyJoin(a: seq<string>, b: seq<string>)
    ensures NonEmpty(a + b) == NonEmpty(a) + NonEmpty(b)
  {
    if a == [] {
      assert a + b == b;
    } else {
      NonEmptyJoin(a[1..], b);
      assert a == [a[0]] + a[1..];
      assert a + b == [a[0]] + (a[1..] + b);
      NonEmptyLonger(a[0], a[1..], b);
    }
  }

  lemma NonEmptyLonger(piece: string, rest: seq<string>, b: seq<string>)
    requires NonEmpty(rest + b) == NonEmpty(rest) + NonEmpty(b)
    ensures NonEmpty([piece] + (rest + b)) == NonEmpty([piece] + rest) + NonEmpty(b)
  {
    NonEmptyCons(piece, rest);
    NonEmptyCons(piece, rest + b);
    if piece != "" {
      ConsJoin(piece, NonEmpty(rest), NonEmpty(b));
    }
  }

  lemma SegmentsJoin(a: string, b: string)
    ensures Segments(a + "/" + b) == Segments(a) + Segments(b)
  {
    SplitJoin(a, b, '/');
    NonEmptyJoin(Split(a, '/'), Split(b, '/'));
  }

  lemma HarmlessBehind(segments: seq<string>, at: nat, k: nat)
    requires at <= k < |segments| && forall s <- segments[at..] :: Harmless(s)
    ensures Harmless(segments[k])
  {
    assert segments[at..][k - at] == segments[k];
  }

  lemma DeeperPair(segments: seq<string>, first: string, second: string)
    requires InRealm(segments, first) && InRealm(segments, second)
    requires LastPair(segments, first).value < LastPair(segments, second).value
    ensures first == "realms" && '%' !in second
  {
    var i, j := LastPair(segments, first).value, LastPair(segments, second).value;
    HarmlessBehind(segments, i + 2, j + 1);
    if j >= i + 2 {
      HarmlessBehind(segments, i + 2, j);
      assert false;
    }
  }

  /** What can be a realm's name in a path. */
  predicate RealmName(name: string) {
    name != "" && '/' !in name
  }

  lemma SegmentsOfName(name: string)
    requires RealmName(name)
    ensures Segments(name) == [name]
  {
    SplitPlain(name, '/');
    NonEmptyCons(name, []);
  }

  lemma {:induction false} NonEmptyFrom(pieces: seq<string>, c: char)
    requires forall i :: 0 <= i < |pieces| ==> c !in pieces[i]
    ensures forall s <- NonEmpty(pieces) :: c !in s
  {
    if pieces != [] {
      NonEmptyFrom(pieces[1..], c);
    }
  }

  /** The names realms can have are exactly the ones issuer paths can name. */
  lemma RealmNames(name: string)
    ensures RealmName(name) <==> exists path :: RealmOf(Segments(path)) == Some(name)
  {
    if RealmName(name) {
      var path := "realms" + "/" + name;
      SegmentsOfName("realms");
      SegmentsOfName(name);
      SegmentsJoin("realms", name);
      assert Segments(path) == ["realms", name];
    }
    forall path | RealmOf(Segments(path)) == Some(name) ensures RealmName(name) {
      SplitMeans(path, '/');
      NonEmptyFrom(Split(path, '/'), '/');
      assert name in Segments(path);
    }
  }

  /** Two realms share an accepted path exactly when one is itself named "realms" and the other's
      name holds no percent sign. */
  lemma RealmsShareAPath(first: string, second: string)
    requires RealmName(first) && RealmName(second) && first != second
    ensures (exists path :: InRealm(Segments(path), first) && InRealm(Segments(path), second)) <==>
            (first == "realms" && '%' !in second) || (second == "realms" && '%' !in first)
  {
    hide Segments, RealmName;
    forall path | InRealm(Segments(path), first) && InRealm(Segments(path), second)
      ensures (first == "realms" && '%' !in second) || (second == "realms" && '%' !in first)
    {
      if LastPair(Segments(path), first).value < LastPair(Segments(path), second).value {
        DeeperPair(Segments(path), first, second);
      } else {
        DeeperPair(Segments(path), second, first);
      }
    }
    if first == "realms" && '%' !in second {
      var path := SharedPath(second);
    }
    if second == "realms" && '%' !in first {
      var path := SharedPath(first);
    }
  }

  lemma SharedPath(other: string) returns (path: string)
    requires RealmName(other) && other != "realms" && '%' !in other
    ensures InRealm(Segments(path), "realms") && InRealm(Segments(path), other)
  {
    var front := "realms" + "/" + "realms";
    path := front + "/" + other;
    SegmentsOfName("realms");
    SegmentsOfName(other);
    SegmentsJoin("realms", "realms");
    SegmentsJoin(front, other);
    assert Segments(path) == ["realms", "realms", other];
    RealmsPath(other);
  }

  lemma RealmsPath(other: string)
    requires other != "realms" && '%' !in other
    ensures InRealm(["realms", "realms", other], "realms")
    ensures InRealm(["realms", "realms", other], other)
  {
    var segments := ["realms", "realms", other];
    assert segments[1] == "realms" && segments[2] == other;
    assert segments[0] == "realms" && segments[1] == "realms";
    assert segments[2..] == [other];
    assert segments[3..] == [];
    assert LastPair(segments, "realms").value == 0;
    assert LastPair(segments, other).value == 1;
  }

  /** Accept a discovered endpoint: exactly when it is HTTPS on the issuer's origin, without
      credentials or fragment, and inside the issuer's realm if its path names one. */
  function Endpoint(url: Url, issuer: Url): (r: Result<Url>)
    ensures r.Ok? ==> r.value == url
    ensures r.Ok? <==>
            && url.scheme == "https" && SameOrigin(url, issuer)
            && url.username == "" && url.password.None? && url.fragment.None?
            && forall realm :: RealmOf(Segments(issuer.path)) == Some(realm) ==>
                 InRealm(Segments(url.path), realm)
  {
    if url.scheme != "https" || !SameOrigin(url, issuer) then
      Err(Protocol("OIDC endpoint origin mismatch"))
    else if url.username != "" || url.password.Some? then
      Err(Protocol("OIDC endpoint contains credentials"))
    else if url.fragment.Some? then
      Err(Protocol("OIDC endpoint contains fragment"))
    else
      match RealmOf(Segments(issuer.path))
      case Some(realm) =>
        if InRealm(Segments(url.path), realm) then Ok(url)
        else Err(Protocol("OIDC endpoint outside issuer realm"))
      case None => Ok(url)
  }

  // The authorization request.

  const RESERVED: set<string> := {
    "response_type", "client_id", "redirect_uri", "scope", "code_challenge",
    "code_challenge_method", "state", "nonce", "login_hint", "response_mode", "request",
    "request_uri"}

  predicate ScopeChar(c: char) {
    var n := c as int;
    n == 0x21 || 0x23 <= n <= 0x5B || 0x5D <= n <= 0x7E
  }

  predicate ValidScope(scope: string) {
    scope != "" && forall i :: 0 <= i < |scope| ==> ScopeChar(scope[i])
  }

  predicate Alphanumeric(c: char) {
    '0' <= c <= '9' || 'A' <= c <= 'Z' || 'a' <= c <= 'z'
  }

  predicate ValidVerifier(v: string) {
    && 43 <= |v| <= 128
    && forall i :: 0 <= i < |v| ==>
         Alphanumeric(v[i]) || v[i] == '-' || v[i] == '.' || v[i] == '_' || v[i] == '~'
  }

  predicate ValidToken(t: string) {
    |t| == 22 && forall i :: 0 <= i < |t| ==> Alphanumeric(t[i]) || t[i] == '-' || t[i] == '_'
  }

  function AddScope(scopes: seq<string>, scope: string): seq<string> {
    if scope != "openid" && scope !in scopes then scopes + [scope] else scopes
  }

  function NormalScopes(scopes: seq<string>): seq<string> {
    if scopes == [] then ["openid"]
    else AddScope(NormalScopes(scopes[..|scopes| - 1]), scopes[|scopes| - 1])
  }

  predicate AllValid(scopes: seq<string>) {
    forall i :: 0 <= i < |scopes| ==> ValidScope(scopes[i])
  }

  /** "openid" first, then each requested scope once, in the order first asked. */
  method NormalizeScopes(scopes: seq<string>) returns (r: Result<seq<string>>)
    ensures r == if AllValid(scopes) then Ok(NormalScopes(scopes))
                 else Err(Protocol("invalid authorization scope"))
  {
    hide ValidScope;
    var normalized := ["openid"];
    for i := 0 to |scopes|
      invariant AllValid(scopes[..i]) && normalized == NormalScopes(scopes[..i])
    {
      if !ValidScope(scopes[i]) {
        return Err(Protocol("invalid authorization scope"));
      }
      assert scopes[..i + 1] == scopes[..i] + [scopes[i]];
      if scopes[i] != "openid" && scopes[i] !in normalized {
        normalized := normalized + [scopes[i]];
      }
    }
    assert scopes[..|scopes|] == scopes;
    r := Ok(normalized);
  }

  /** Normal scopes lead with "openid", repeat nothing and hold exactly what was asked. */
  lemma {:induction false} NormalScopesAreASet(scopes: seq<string>)
    ensures var r := NormalScopes(scopes);
            && r != [] && r[0] == "openid"
            && (forall i, j :: 0 <= j < i < |r| ==> r[j] != r[i])
            && (forall s :: s in r <==> s == "openid" || s in scopes)
  {
    if scopes != [] {
      NormalScopesAreASet(scopes[..|scopes| - 1]);
      assert scopes == scopes[..|scopes| - 1] + [scopes[|scopes| - 1]];
    }
  }

  function JoinScopes(scopes: seq<string>): string {
    if scopes == [] then ""
    else if |scopes| == 1 then scopes[0]
    else scopes[0] + " " + JoinScopes(scopes[1..])
  }

  datatype Request = Request(
    clientId: string,
    redirectUri: string,
    loginHint: Option<string>,
    scopes: seq<string>,
    verifier: string,
    state: string,
    nonce: string)

  /** The authorization URL: the endpoint with the request's parameters appended. It is refused when
      the endpoint already sets one of them, or a secret or scope is malformed, or the PKCE verifier
      cannot be hashed by `challenge`. */
  function AuthorizationUrl(endpoint: Url, p: Request, challenge: string -> Result<string>)
    : (r: Result<Url>)
    ensures r.Ok? ==> r.value.(query := endpoint.query) == endpoint && endpoint.query <= r.value.query
    ensures r.Ok? <==>
            && (forall i :: 0 <= i < |endpoint.query| ==> endpoint.query[i].0 !in RESERVED)
            && ValidVerifier(p.verifier) && ValidToken(p.state) && ValidToken(p.nonce)
            && AllValid(p.scopes) && challenge(p.verifier).Ok?
  {
    if exists i :: 0 <= i < |endpoint.query| && endpoint.query[i].0 in RESERVED then
      Err(Protocol("authorization endpoint parameter collision"))
    else if !ValidVerifier(p.verifier) || !ValidToken(p.state) || !ValidToken(p.nonce) then
      Err(Protocol("invalid authorization request secret"))
    else if !AllValid(p.scopes) then Err(Protocol("invalid authorization scope"))
    else
      match challenge(p.verifier)
      case Err(e) => Err(e)
      case Ok(hash) =>
        var hint := match p.loginHint case Some(h) => [("login_hint", h)] case None => [];
        Ok(endpoint.(query := endpoint.query + [
          ("response_type", "code"),
          ("client_id", p.clientId),
          ("redirect_uri", p.redirectUri),
          ("scope", JoinScopes(NormalScopes(p.scopes))),
          ("code_challenge", hash),
          ("code_challenge_method", "S256"),
          ("state", p.state),
          ("nonce", p.nonce)] + hint))
  }

  // What the request's parts are made of.

  /** An ASCII letter or digit, or one of the marks. */
  predicate Among(c: char, marks: string) {
    var n := c as int;
    0x30 <= n <= 0x39 || 0x41 <= n <= 0x5A || 0x61 <= n <= 0x7A || c in marks
  }

  /** A PKCE verifier is 43 to 128 unreserved characters (RFC 7636 section 4.1); state and nonce are 22
      characters of the URL-safe base64 alphabet; a scope is printable ASCII but for space, quote and
      backslash (RFC 6749 section 3.3). */
  lemma SecretsMean(v: string, t: string, scope: string)
    ensures ValidVerifier(v) <==> 43 <= |v| <= 128 && forall i :: 0 <= i < |v| ==> Among(v[i], "-._~")
    ensures ValidToken(t) <==> |t| == 22 && forall i :: 0 <= i < |t| ==> Among(t[i], "-_")
    ensures ValidScope(scope) <==>
            scope != "" && forall i :: 0 <= i < |scope| ==>
              ' ' < scope[i] <= '~' && scope[i] != '"' && scope[i] != '\\'
  {
    forall c
      ensures Among(c, "-._~") <==> Alphanumeric(c) || c == '-' || c == '.' || c == '_' || c == '~'
      ensures Among(c, "-_") <==> Alphanumeric(c) || c == '-' || c == '_'
    {
    }
  }

  /** Joined scopes come apart at the spaces again. */
  lemma {:induction false} ScopesSplit(scopes: seq<string>)
    requires scopes != [] && forall i :: 0 <= i < |scopes| ==> ' ' !in scopes[i]
    ensures Split(JoinScopes(scopes), ' ') == scopes
  {
    if |scopes| == 1 {
      SplitPlain(scopes[0], ' ');
    } else {
      ScopesSplit(scopes[1..]);
      SplitAtFirst(scopes[0], JoinScopes(scopes[1..]), ' ');
      assert scopes[0] + " " + JoinScopes(scopes[1..]) == scopes[0] + [' '] + JoinScopes(scopes[1..]);
      assert scopes == [scopes[0]] + scopes[1..];
    }
  }

  /** The names an endpoint must not set itself. */
  lemma ReservedMeans()
    ensures RESERVED == {"response_type", "client_id", "redirect_uri", "scope", "state", "nonce",
                         "code_challenge", "code_challenge_method", "login_hint", "response_mode",
                         "request", "request_uri"}
  {
  }
}
