/** ID tokens: their three parts, the key that may have signed them, and the claims they must make. */
module IdTokens {
  import opened Common
  import opened Utf8
  import opened Text
  import opened JsonGrammar
  import opened JsonReading
  import opened Requests
  import opened Grants
  import opened Splitting

  // The parts.

  const DOT: byte := 0x2E

  function SplitToken(token: Bytes): Result<(Bytes, Bytes, Bytes)> {
    var parts := Split(token, DOT);
    if |parts| == 3 && parts[0] != [] && parts[1] != [] && parts[2] != [] then
      Ok((parts[0], parts[1], parts[2]))
    else Err(TokenValidation("malformed JWT"))
  }

  /** Three parts, none empty, with a dot between each and none inside. */
  predicate InParts(token: Bytes, header: Bytes, claims: Bytes, signature: Bytes) {
    && token == header + [DOT] + (claims + [DOT] + signature)
    && header != [] && claims != [] && signature != []
    && DOT !in header && DOT !in claims && DOT !in signature
  }

  /** A token splits exactly when it is three such parts, and then into those. */
  lemma TokenSplits(token: Bytes, header: Bytes, claims: Bytes, signature: Bytes)
    ensures SplitToken(token) == Ok((header, claims, signature)) <==>
            InParts(token, header, claims, signature)
  {
    hide Split, Rejoin;
    if SplitToken(token) == Ok((header, claims, signature)) {
      var parts := Split(token, DOT);
      SplitMeans(token, DOT);
      RejoinThree(parts, DOT);
      assert DOT !in parts[0] && DOT !in parts[1] && DOT !in parts[2];
    }
    if InParts(token, header, claims, signature) {
      JoinSplits(header, claims, signature);
    }
  }

  lemma JoinSplits(header: Bytes, claims: Bytes, signature: Bytes)
    requires DOT !in header && DOT !in claims && DOT !in signature
    ensures Split(header + [DOT] + (claims + [DOT] + signature), DOT) == [header, claims, signature]
  {
    var rest := claims + [DOT] + signature;
    SplitAtFirst(header, rest, DOT);
    SplitAtFirst(claims, signature, DOT);
    SplitPlain(signature, DOT);
    assert Split(rest, DOT) == [claims] + [signature];
    assert [header] + Split(rest, DOT) == [header, claims, signature];
  }

  lemma RejoinThree<T>(parts: seq<seq<T>>, c: T)
    requires |parts| == 3
    ensures Rejoin(parts, c) == parts[0] + [c] + (parts[1] + [c] + parts[2])
  {
    var tail := parts[1..];
    assert tail[1..] == [parts[2]];
    assert Rejoin(tail[1..], c) == parts[2];
    assert Rejoin(tail, c) == parts[1] + [c] + parts[2];
  }

  /** The libraries a token is read and checked with. */
  datatype Tools = Tools(
    base64: Bytes -> Option<Bytes>,
    convert: Convert,
    asU64: Value -> Option<nat>,
    signed: (Bytes, Value, Bytes, Bytes) -> Verdict)

  function DecodeJson(tools: Tools, part: Bytes): Result<Value> {
    match tools.base64(part)
    case None => Err(TokenValidation("invalid JWT encoding"))
    case Some(text) =>
      match ReadText(text, tools.convert)
      case None => Err(TokenValidation("invalid JWT JSON"))
      case Some(v) => Ok(v)
  }

  predicate Supported(algorithm: Bytes) {
    algorithm == StringBytes("RS256") || algorithm == StringBytes("ES256")
  }

  /** The key a token says it was signed with: its ID and algorithm. */
  function TokenKeyInfo(tools: Tools, token: Bytes): Result<(Bytes, Bytes)> {
    match SplitToken(token)
    case Err(e) => Err(e)
    case Ok((header, _, _)) =>
      match DecodeJson(tools, header)
      case Err(e) => Err(e)
      case Ok(v) =>
        var kid, algorithm := TextOf(Get(v, "kid")), TextOf(Get(v, "alg"));
        if kid.None? then Err(TokenValidation("token has no key ID"))
        else if algorithm.None? then Err(TokenValidation("missing algorithm"))
        else if !Supported(algorithm.value) then
          Err(TokenValidation("unsupported signing algorithm"))
        else Ok((kid.value, algorithm.value))
  }

  /** Whether the known keys hold one the token may have been signed with. */
  function KeyKnown(tools: Tools, jwks: Value, token: Bytes): Result<bool> {
    match TokenKeyInfo(tools, token)
    case Err(e) => Err(e)
    case Ok((kid, algorithm)) =>
      var keys := Get(jwks, "keys");
      Ok(keys.Some? && keys.value.Array? && HasEligible(keys.value.items, kid, algorithm))
  }

  predicate HasEligible(keys: seq<Value>, kid: Bytes, algorithm: Bytes) {
    exists i :: 0 <= i < |keys| && KeyEligible(keys[i], kid, algorithm)
  }

  /** What the keys are tried with, for one token. */
  function ChecksFor(tools: Tools, now: Option<nat>, message: Bytes, signature: Bytes): Checks {
    Checks(tools.asU64, (algorithm, key) => tools.signed(algorithm, key, message, signature), now)
  }

  /** The whole check of an ID token, from its text to its claims. */
  function VerifyIdToken(tools: Tools, now: Option<nat>, jwks: Value, token: Bytes, issuer: Bytes,
                         client: Bytes, nonce: Option<Bytes>): Result<Value>
  {
    match SplitToken(token)
    case Err(e) => Err(e)
    case Ok((header, claims, signature)) =>
      match (DecodeJson(tools, header), DecodeJson(tools, claims))
      case (Err(e), _) => Err(e)
      case (_, Err(e)) => Err(e)
      case (Ok(head), Ok(said)) =>
        var kid, algorithm := TextOf(Get(head, "kid")), TextOf(Get(head, "alg"));
        var keys, bytes := Get(jwks, "keys"), tools.base64(signature);
        if algorithm.None? then Err(TokenValidation("missing algorithm"))
        else if !Supported(algorithm.value) then
          Err(TokenValidation("unsupported signing algorithm"))
        else if kid.None? then Err(TokenValidation("missing key ID"))
        else if keys.None? || !keys.value.Array? then Err(TokenValidation("invalid JWKS"))
        else if bytes.None? then Err(TokenValidation("invalid signature encoding"))
        else
          CheckedBy(keys.value.items, kid.value, algorithm.value, said,
                    ChecksFor(tools, now, header + [DOT] + claims, bytes.value),
                    issuer, client, nonce)
  }

  // The key.

  /** How a signature check comes out. */
  datatype Verdict = Good | Bad | Broken

  /** What a token is checked with: number conversion, signatures and the time are not ours. */
  datatype Checks = Checks(
    asU64: Value -> Option<nat>,
    signed: (Bytes, Value) -> Verdict,
    now: Option<nat>)

  predicate FieldMatches(key: Value, name: string, expected: Bytes) {
    Get(key, name).None? || TextOf(Get(key, name)) == Some(expected)
  }

  predicate VerifyOps(ops: Value) {
    && ops.Array?
    && (exists i :: 0 <= i < |ops.items| && ops.items[i] == String(StringBytes("verify")))
    && forall i :: 0 <= i < |ops.items| ==> ops.items[i].String?
  }

  predicate KeyEligible(key: Value, kid: Bytes, algorithm: Bytes) {
    && TextOf(Get(key, "kid")) == Some(kid)
    && FieldMatches(key, "use", StringBytes("sig"))
    && FieldMatches(key, "alg", algorithm)
    && (Get(key, "key_ops").Some? ==> VerifyOps(Get(key, "key_ops").value))
    && TypeMatches(key, algorithm)
  }

  predicate TypeMatches(key: Value, algorithm: Bytes) {
    if algorithm == StringBytes("RS256") then TextOf(Get(key, "kty")) == Some(StringBytes("RSA"))
    else if algorithm == StringBytes("ES256") then
      TextOf(Get(key, "kty")) == Some(StringBytes("EC"))
      && TextOf(Get(key, "crv")) == Some(StringBytes("P-256"))
    else false
  }

  /** A key meant to check signatures of this algorithm, under this ID: RSA keys for RS256, P-256 keys
      for ES256; where it names a use, that is signatures; where it names an algorithm, that one; where
      it lists operations, strings with "verify" among them (RFC 7517 section 4, RFC 7518 section 6). */
  ghost predicate SigningKey(key: Value, kid: Bytes, algorithm: Bytes) {
    && Says(key, "kid", String(kid))
    && (|| (algorithm == StringBytes("RS256") && Says(key, "kty", String(StringBytes("RSA"))))
        || (algorithm == StringBytes("ES256") && Says(key, "kty", String(StringBytes("EC")))
            && Says(key, "crv", String(StringBytes("P-256")))))
    && (Silent(key, "use") || Says(key, "use", String(StringBytes("sig"))))
    && (Silent(key, "alg") || Says(key, "alg", String(algorithm)))
    && (Silent(key, "key_ops")
        || exists ops: seq<Value> :: Says(key, "key_ops", Array(ops))
             && String(StringBytes("verify")) in ops && forall op <- ops :: op.String?)
  }

  lemma MemberMeans(v: Value, name: string)
    ensures Get(v, name).None? <==> Silent(v, name)
    ensures forall x :: Get(v, name) == Some(x) <==> Says(v, name, x)
    ensures forall text :: TextOf(Get(v, name)) == Some(text) <==> Says(v, name, String(text))
  {
  }

  lemma AlgorithmsDiffer()
    ensures StringBytes("RS256") != StringBytes("ES256")
  {
    assert StringBytes("RS256")[0] == 0x52 && StringBytes("ES256")[0] == 0x45;
  }

  lemma OpsMean(key: Value)
    ensures (Get(key, "key_ops").Some? ==> VerifyOps(Get(key, "key_ops").value)) <==>
            (Silent(key, "key_ops")
             || exists ops: seq<Value> :: Says(key, "key_ops", Array(ops))
                  && String(StringBytes("verify")) in ops && forall op <- ops :: op.String?)
  {
    hide StringBytes, Get, Says, Silent;
    MemberMeans(key, "key_ops");
    if Get(key, "key_ops").Some? && Get(key, "key_ops").value.Array? {
      assert Says(key, "key_ops", Array(Get(key, "key_ops").value.items));
    }
  }

  /** Eligible keys are exactly those meant for the signature. */
  lemma EligibleMeans(key: Value, kid: Bytes, algorithm: Bytes)
    ensures KeyEligible(key, kid, algorithm) <==> SigningKey(key, kid, algorithm)
  {
    hide StringBytes, Get, TextOf, Says, Silent, VerifyOps;
    MemberMeans(key, "kid");
    MemberMeans(key, "kty");
    MemberMeans(key, "crv");
    MemberMeans(key, "use");
    MemberMeans(key, "alg");
    OpsMean(key);
    AlgorithmsDiffer();
  }

  /** The first eligible key that settles the matter, one way or the other. */
  function Settling(keys: seq<Value>, kid: Bytes, algorithm: Bytes, checks: Checks, i: nat): (k: nat)
    requires i <= |keys|
    ensures i <= k <= |keys|
    decreases |keys| - i
  {
    if i == |keys| then i
    else if KeyEligible(keys[i], kid, algorithm) && !checks.signed(algorithm, keys[i]).Bad? then i
    else Settling(keys, kid, algorithm, checks, i + 1)
  }

  function Unsettled(keys: seq<Value>, kid: Bytes, algorithm: Bytes): Error {
    if HasEligible(keys, kid, algorithm) then TokenValidation("invalid signature")
    else if exists i :: 0 <= i < |keys| && TextOf(Get(keys[i], "kid")) == Some(kid) then
      TokenValidation("JWK not valid for token signature")
    else TokenValidation("unknown key ID")
  }

  /** Try the eligible keys in order. */
  function CheckedBy(keys: seq<Value>, kid: Bytes, algorithm: Bytes, claims: Value, checks: Checks,
                     issuer: Bytes, client: Bytes, nonce: Option<Bytes>): Result<Value>
  {
    var k := Settling(keys, kid, algorithm, checks, 0);
    if k == |keys| then Err(Unsettled(keys, kid, algorithm))
    else if checks.signed(algorithm, keys[k]).Broken? then Err(Crypto)
    else
      match ValidateClaims(claims, checks, issuer, client, nonce)
      case Err(e) => Err(e)
      case Ok(_) => Ok(claims)
  }

  method VerifyWithKeys(keys: seq<Value>, kid: Bytes, algorithm: Bytes, claims: Value, checks: Checks,
                        issuer: Bytes, client: Bytes, nonce: Option<Bytes>)
      returns (r: Result<Value>)
    ensures r == CheckedBy(keys, kid, algorithm, claims, checks, issuer, client, nonce)
  {
    hide KeyEligible, ValidateClaims, Get, TextOf;
    var eligible := false;
    for i := 0 to |keys|
      invariant eligible <==> exists j :: 0 <= j < i && KeyEligible(keys[j], kid, algorithm)
      invariant Settling(keys, kid, algorithm, checks, i) == Settling(keys, kid, algorithm, checks, 0)
    {
      if KeyEligible(keys[i], kid, algorithm) {
        eligible := true;
        match checks.signed(algorithm, keys[i])
        case Good =>
          var valid := ValidateClaims(claims, checks, issuer, client, nonce);
          if valid.Err? {
            return Err(valid.error);
          }
          return Ok(claims);
        case Broken => return Err(Crypto);
        case Bad =>
      }
    }
    r := Err(Unsettled(keys, kid, algorithm));
  }

  // The claims.

  predicate AudienceMatches(claims: Value, client: Bytes) {
    var azp, aud := Get(claims, "azp"), Get(claims, "aud");
    if azp.Some? && azp != Some(String(client)) then false
    else if aud.None? then false
    else if aud.value.String? then aud.value.text == client
    else if aud.value.Array? then
      && (forall i :: 0 <= i < |aud.value.items| ==> aud.value.items[i].String?)
      && String(client) in aud.value.items
      && (|aud.value.items| == 1 || azp == Some(String(client)))
    else false
  }

  function U64Of(claims: Value, name: string, checks: Checks): Option<nat> {
    match Get(claims, name) case None => None case Some(v) => checks.asU64(v)
  }

  const U64_MAX: nat := 0xFFFF_FFFF_FFFF_FFFF

  function SaturatingAdd(a: nat, b: nat): nat {
    if a + b > U64_MAX then U64_MAX else a + b
  }

  function ValidateClaims(claims: Value, checks: Checks, issuer: Bytes, client: Bytes,
                          nonce: Option<Bytes>): Result<()>
  {
    if TextOf(Get(claims, "iss")) != Some(issuer) then Err(TokenValidation("issuer mismatch"))
    else if !AudienceMatches(claims, client) then Err(TokenValidation("audience mismatch"))
    else if checks.now.None? then Err(TokenValidation("clock before epoch"))
    else
      match ValidateTimes(claims, checks, checks.now.value)
      case Err(e) => Err(e)
      case Ok(_) =>
        if nonce.Some? && TextOf(Get(claims, "nonce")) != nonce then
          Err(TokenValidation("nonce mismatch"))
        else if TextOf(Get(claims, "sub")).None? || TextOf(Get(claims, "sub")).value == [] then
          Err(TokenValidation("missing subject"))
        else Ok(())
  }

  function ValidateTimes(claims: Value, checks: Checks, now: nat): Result<()> {
    var expiry, issued := U64Of(claims, "exp", checks), U64Of(claims, "iat", checks);
    var start := U64Of(claims, "nbf", checks);
    if expiry.None? then Err(TokenValidation("missing expiry"))
    else if expiry.value <= now then Err(TokenValidation("token expired"))
    else if Get(claims, "nbf").Some? && start.None? then
      Err(TokenValidation("invalid not-before time"))
    else if Get(claims, "nbf").Some? && start.value > SaturatingAdd(now, 60) then
      Err(TokenValidation("token not yet valid"))
    else if issued.None? then Err(TokenValidation("missing issued-at time"))
    else if issued.value > SaturatingAdd(now, 60) then Err(TokenValidation("token issued in future"))
    else Ok(())
  }

  /** A key at `k` meant for it signed the token, and every such key before it merely failed to. */
  ghost predicate SignedAt(keys: seq<Value>, kid: Bytes, algorithm: Bytes, checks: Checks, k: nat) {
    && k < |keys| && SigningKey(keys[k], kid, algorithm) && checks.signed(algorithm, keys[k]).Good?
    && forall j :: 0 <= j < k && SigningKey(keys[j], kid, algorithm) ==>
         checks.signed(algorithm, keys[j]).Bad?
  }

  lemma {:induction false} SettlingIsFirst(keys: seq<Value>, kid: Bytes, algorithm: Bytes,
                                           checks: Checks, i: nat)
    requires i <= |keys|
    ensures var k := Settling(keys, kid, algorithm, checks, i);
            && (k < |keys| ==> KeyEligible(keys[k], kid, algorithm)
                               && !checks.signed(algorithm, keys[k]).Bad?)
            && forall j :: i <= j < k && KeyEligible(keys[j], kid, algorithm) ==>
                 checks.signed(algorithm, keys[j]).Bad?
    decreases |keys| - i
  {
    hide KeyEligible;
    if i < |keys| && Settling(keys, kid, algorithm, checks, i) != i {
      SettlingIsFirst(keys, kid, algorithm, checks, i + 1);
    }
  }

  /** A token is accepted exactly when some key meant for it signed it, with no broken check before it,
      and its claims hold; the claims returned are the token's own. */
  lemma AcceptedExactly(keys: seq<Value>, kid: Bytes, algorithm: Bytes, claims: Value,
                        checks: Checks, issuer: Bytes, client: Bytes, nonce: Option<Bytes>)
    ensures var r := CheckedBy(keys, kid, algorithm, claims, checks, issuer, client, nonce);
            && (r.Ok? ==> r.value == claims)
            && (r.Ok? <==>
                 && ValidateClaims(claims, checks, issuer, client, nonce).Ok?
                 && exists k :: SignedAt(keys, kid, algorithm, checks, k))
  {
    hide KeyEligible, SigningKey, ValidateClaims;
    var k := Settling(keys, kid, algorithm, checks, 0);
    SettlingIsFirst(keys, kid, algorithm, checks, 0);
    forall key ensures KeyEligible(key, kid, algorithm) <==> SigningKey(key, kid, algorithm) {
      EligibleMeans(key, kid, algorithm);
    }
    if k < |keys| && checks.signed(algorithm, keys[k]).Good? {
      assert SignedAt(keys, kid, algorithm, checks, k);
    }
    if n: nat :| SignedAt(keys, kid, algorithm, checks, n) {
      assert n == k;
    }
  }

  /** One audience, this client; or several with this client among them and as authorized party. */
  predicate NamesClient(claims: Value, client: Bytes) {
    var azp, aud := Get(claims, "azp"), Get(claims, "aud");
    && (azp.None? || azp == Some(String(client)))
    && (|| aud == Some(String(client)) || aud == Some(Array([String(client)]))
        || (&& azp == Some(String(client)) && aud.Some? && aud.value.Array?
            && String(client) in aud.value.items
            && forall v <- aud.value.items :: v.String?))
  }

  /** In force now, give or take a minute at the start: an expiry still to come, and times of issue
      and validity not more than sixty seconds ahead. */
  ghost predicate InForce(claims: Value, asU64: Value -> Option<nat>, now: nat) {
    && (exists t: nat :: NumberIs(claims, asU64, "exp", t) && t > now)
    && (exists t: nat :: NumberIs(claims, asU64, "iat", t) && t <= now + 60 && t < 0x1_0000_0000_0000_0000)
    && (Silent(claims, "nbf")
        || exists t: nat ::
             NumberIs(claims, asU64, "nbf", t) && t <= now + 60 && t < 0x1_0000_0000_0000_0000)
  }

  ghost predicate NumberIs(claims: Value, asU64: Value -> Option<nat>, name: string, t: nat) {
    exists v :: Says(claims, name, v) && asU64(v) == Some(t)
  }

  /** What a token's claims have to say. */
  ghost predicate ClaimsHold(claims: Value, asU64: Value -> Option<nat>, now: Option<nat>,
                             issuer: Bytes, client: Bytes, nonce: Option<Bytes>)
  {
    && Get(claims, "iss") == Some(String(issuer))
    && NamesClient(claims, client)
    && now.Some? && InForce(claims, asU64, now.value)
    && (nonce.Some? ==> Get(claims, "nonce") == Some(String(nonce.value)))
    && (exists subject :: subject != [] && Get(claims, "sub") == Some(String(subject)))
  }

  lemma AudienceNames(claims: Value, client: Bytes)
    ensures AudienceMatches(claims, client) <==> NamesClient(claims, client)
  {
    hide Get;
    var aud := Get(claims, "aud");
    if aud.Some? && aud.value.Array? {
      var items := aud.value.items;
      if |items| == 1 && String(client) in items {
        assert items == [String(client)];
      }
      assert (forall i :: 0 <= i < |items| ==> items[i].String?) <==> forall v <- items :: v.String?;
    }
  }

  lemma TimesInForce(claims: Value, checks: Checks, now: nat)
    ensures ValidateTimes(claims, checks, now).Ok? <==> InForce(claims, checks.asU64, now)
  {
    hide Get, Says, Silent, NumberIs;
    MemberMeans(claims, "nbf");
    NumberMeans(claims, "exp", checks);
    NumberMeans(claims, "iat", checks);
    NumberMeans(claims, "nbf", checks);
  }

  lemma NumberMeans(claims: Value, name: string, checks: Checks)
    ensures forall t: nat :: U64Of(claims, name, checks) == Some(t) <==>
              NumberIs(claims, checks.asU64, name, t)
  {
    hide Get, Says;
    MemberMeans(claims, name);
    if Get(claims, name).Some? {
      assert Says(claims, name, Get(claims, name).value);
    }
  }

  /** Claims are valid exactly when they say what they have to. */
  lemma ValidClaimsMean(claims: Value, checks: Checks, issuer: Bytes, client: Bytes,
                        nonce: Option<Bytes>)
    ensures ValidateClaims(claims, checks, issuer, client, nonce).Ok? <==>
            ClaimsHold(claims, checks.asU64, checks.now, issuer, client, nonce)
  {
    hide Get, AudienceMatches, NamesClient, ValidateTimes, InForce;
    AudienceNames(claims, client);
    if checks.now.Some? {
      TimesInForce(claims, checks, checks.now.value);
    }
    var sub := TextOf(Get(claims, "sub"));
    if sub.Some? && sub.value != [] {
      assert Get(claims, "sub") == Some(String(sub.value));
    }
  }

  // The whole check.

  /** How a token can be accepted: its parts, what they decode to, and the key that signed it. */
  datatype Evidence = Evidence(
    header: Bytes,
    claims: Bytes,
    signature: Bytes,
    head: Value,
    kid: Bytes,
    algorithm: Bytes,
    keys: seq<Value>,
    bytes: Bytes,
    key: nat)

  /** The token is these parts, the claims are its own, and the key at `key`, meant for it, signed header
      and claims with RS256 or ES256. */
  ghost predicate Signed(tools: Tools, now: Option<nat>, jwks: Value, token: Bytes, said: Value,
                         e: Evidence)
  {
    && InParts(token, e.header, e.claims, e.signature)
    && DecodeJson(tools, e.header) == Ok(e.head) && DecodeJson(tools, e.claims) == Ok(said)
    && Says(e.head, "kid", String(e.kid)) && Says(e.head, "alg", String(e.algorithm))
    && (e.algorithm == StringBytes("RS256") || e.algorithm == StringBytes("ES256"))
    && Says(jwks, "keys", Array(e.keys)) && tools.base64(e.signature) == Some(e.bytes)
    && SignedAt(e.keys, e.kid, e.algorithm,
                ChecksFor(tools, now, e.header + [DOT] + e.claims, e.bytes), e.key)
  }

  lemma VerifiedIsSigned(tools: Tools, now: Option<nat>, jwks: Value, token: Bytes, issuer: Bytes,
                         client: Bytes, nonce: Option<Bytes>) returns (e: Evidence)
    requires VerifyIdToken(tools, now, jwks, token, issuer, client, nonce).Ok?
    ensures var said := VerifyIdToken(tools, now, jwks, token, issuer, client, nonce).value;
            && Signed(tools, now, jwks, token, said, e)
            && ClaimsHold(said, tools.asU64, now, issuer, client, nonce)
  {
    hide Get, Says, StringBytes, DecodeJson, SplitToken, InParts, SignedAt, CheckedBy, ClaimsHold;
    var (header, claims, signature) := SplitToken(token).value;
    TokenSplits(token, header, claims, signature);
    MemberMeans(DecodeJson(tools, header).value, "kid");
    MemberMeans(DecodeJson(tools, header).value, "alg");
    MemberMeans(jwks, "keys");
    var head, said := DecodeJson(tools, header).value, DecodeJson(tools, claims).value;
    var kid, algorithm := TextOf(Get(head, "kid")).value, TextOf(Get(head, "alg")).value;
    var keys, bytes := Get(jwks, "keys").value.items, tools.base64(signature).value;
    var checks := ChecksFor(tools, now, header + [DOT] + claims, bytes);
    AcceptedExactly(keys, kid, algorithm, said, checks, issuer, client, nonce);
    ValidClaimsMean(said, checks, issuer, client, nonce);
    var k :| SignedAt(keys, kid, algorithm, checks, k);
    e := Evidence(header, claims, signature, head, kid, algorithm, keys, bytes, k);
  }

  lemma SignedIsVerified(tools: Tools, now: Option<nat>, jwks: Value, token: Bytes, issuer: Bytes,
                         client: Bytes, nonce: Option<Bytes>, said: Value, e: Evidence)
    requires Signed(tools, now, jwks, token, said, e)
    requires ClaimsHold(said, tools.asU64, now, issuer, client, nonce)
    ensures VerifyIdToken(tools, now, jwks, token, issuer, client, nonce) == Ok(said)
  {
    hide Get, Says, StringBytes, DecodeJson, SplitToken, InParts, SignedAt, CheckedBy, ClaimsHold;
    TokenSplits(token, e.header, e.claims, e.signature);
    MemberMeans(e.head, "kid");
    MemberMeans(e.head, "alg");
    MemberMeans(jwks, "keys");
    var checks := ChecksFor(tools, now, e.header + [DOT] + e.claims, e.bytes);
    ValidClaimsMean(said, checks, issuer, client, nonce);
    AcceptedExactly(e.keys, e.kid, e.algorithm, said, checks, issuer, client, nonce);
  }

  /** An ID token is accepted, and its claims returned, exactly when it is three parts that decode,
      a key meant for it signed the first two with RS256 or ES256, every such key before it merely
      failed to, and the claims are the token's own and say what they have to. */
  lemma VerifiedExactly(tools: Tools, now: Option<nat>, jwks: Value, token: Bytes, issuer: Bytes,
                        client: Bytes, nonce: Option<Bytes>, said: Value)
    ensures VerifyIdToken(tools, now, jwks, token, issuer, client, nonce) == Ok(said) <==>
            && ClaimsHold(said, tools.asU64, now, issuer, client, nonce)
            && exists e :: Signed(tools, now, jwks, token, said, e)
  {
    hide VerifyIdToken, ClaimsHold, Signed;
    if VerifyIdToken(tools, now, jwks, token, issuer, client, nonce) == Ok(said) {
      var e := VerifiedIsSigned(tools, now, jwks, token, issuer, client, nonce);
    }
    if ClaimsHold(said, tools.asU64, now, issuer, client, nonce) {
      if e :| Signed(tools, now, jwks, token, said, e) {
        SignedIsVerified(tools, now, jwks, token, issuer, client, nonce, said, e);
      }
    }
  }

  /** Only known keys verify: a token whose key is not among the known ones cannot pass with them,
      so fetching keys exactly then loses nothing. */
  lemma VerifiedIsKnown(tools: Tools, now: Option<nat>, jwks: Value, token: Bytes, issuer: Bytes,
                        client: Bytes, nonce: Option<Bytes>)
    requires VerifyIdToken(tools, now, jwks, token, issuer, client, nonce).Ok?
    ensures KeyKnown(tools, jwks, token) == Ok(true)
  {
    hide Get, Says, StringBytes, DecodeJson, InParts, SplitToken, ClaimsHold, VerifyIdToken;
    var e := VerifiedIsSigned(tools, now, jwks, token, issuer, client, nonce);
    TokenSplits(token, e.header, e.claims, e.signature);
    hide KeyEligible, SigningKey;
    MemberMeans(e.head, "kid");
    MemberMeans(e.head, "alg");
    MemberMeans(jwks, "keys");
    EligibleMeans(e.keys[e.key], e.kid, e.algorithm);
    assert HasEligible(e.keys, e.kid, e.algorithm);
  }

  /** The keys are an object whose list holds one meant for the token: the token's own header names its
      ID and RS256 or ES256. */
  ghost predicate HoldsKeyFor(tools: Tools, jwks: Value, token: Bytes, header: Bytes, claims: Bytes,
                              signature: Bytes, head: Value, kid: Bytes, algorithm: Bytes,
                              keys: seq<Value>)
  {
    && InParts(token, header, claims, signature) && DecodeJson(tools, header) == Ok(head)
    && Says(head, "kid", String(kid)) && Says(head, "alg", String(algorithm))
    && (algorithm == StringBytes("RS256") || algorithm == StringBytes("ES256"))
    && Says(jwks, "keys", Array(keys))
    && exists key <- keys :: SigningKey(key, kid, algorithm)
  }

  /** A token's key counts as known exactly when the keys hold one meant for it. */
  lemma KnownExactly(tools: Tools, jwks: Value, token: Bytes)
    ensures KeyKnown(tools, jwks, token) == Ok(true) <==>
            exists header, claims, signature, head, kid, algorithm, keys ::
              HoldsKeyFor(tools, jwks, token, header, claims, signature, head, kid, algorithm, keys)
  {
    hide Get, Says, StringBytes, DecodeJson, InParts, SplitToken, KeyEligible, SigningKey;
    MemberMeans(jwks, "keys");
    forall key, kid, algorithm ensures KeyEligible(key, kid, algorithm) <==> SigningKey(key, kid, algorithm) {
      EligibleMeans(key, kid, algorithm);
    }
    if KeyKnown(tools, jwks, token) == Ok(true) {
      var (header, claims, signature) := SplitToken(token).value;
      TokenSplits(token, header, claims, signature);
      var head := DecodeJson(tools, header).value;
      MemberMeans(head, "kid");
      MemberMeans(head, "alg");
      var (kid, algorithm) := TokenKeyInfo(tools, token).value;
      var keys := Get(jwks, "keys").value.items;
      assert HoldsKeyFor(tools, jwks, token, header, claims, signature, head, kid, algorithm, keys);
    }
    if header, claims, signature, head, kid, algorithm, keys :|
        HoldsKeyFor(tools, jwks, token, header, claims, signature, head, kid, algorithm, keys) {
      TokenSplits(token, header, claims, signature);
      MemberMeans(head, "kid");
      MemberMeans(head, "alg");
      assert HasEligible(keys, kid, algorithm);
    }
  }

  /** A key not meant for the token's signature settles nothing, wherever it stands: with it or without
      it the same tokens are accepted, whatever its signature check would say. */
  lemma OtherKeysSettleNothing(front: seq<Value>, key: Value, back: seq<Value>, kid: Bytes,
                               algorithm: Bytes, claims: Value, checks: Checks, issuer: Bytes,
                               client: Bytes, nonce: Option<Bytes>)
    requires !SigningKey(key, kid, algorithm)
    ensures CheckedBy(front + [key] + back, kid, algorithm, claims, checks, issuer, client, nonce).Ok? <==>
            CheckedBy(front + back, kid, algorithm, claims, checks, issuer, client, nonce).Ok?
  {
    hide SigningKey, ValidateClaims, CheckedBy;
    hide SignedAt;
    var all, fewer := front + [key] + back, front + back;
    AcceptedExactly(all, kid, algorithm, claims, checks, issuer, client, nonce);
    AcceptedExactly(fewer, kid, algorithm, claims, checks, issuer, client, nonce);
    if k: nat :| SignedAt(all, kid, algorithm, checks, k) {
      SignedWithout(front, key, back, kid, algorithm, checks, k);
    }
    if k: nat :| SignedAt(fewer, kid, algorithm, checks, k) {
      SignedWith(front, key, back, kid, algorithm, checks, k);
    }
  }

  lemma SignedWithout(front: seq<Value>, key: Value, back: seq<Value>, kid: Bytes, algorithm: Bytes,
                      checks: Checks, k: nat)
    requires !SigningKey(key, kid, algorithm)
    requires SignedAt(front + [key] + back, kid, algorithm, checks, k)
    ensures k != |front|
    ensures SignedAt(front + back, kid, algorithm, checks, if k < |front| then k else k - 1)
  {
    hide SigningKey;
    var all, fewer := front + [key] + back, front + back;
    assert all[|front|] == key;
    assert forall i :: 0 <= i < |fewer| ==> fewer[i] == all[if i < |front| then i else i + 1];
  }

  lemma SignedWith(front: seq<Value>, key: Value, back: seq<Value>, kid: Bytes, algorithm: Bytes,
                   checks: Checks, k: nat)
    requires !SigningKey(key, kid, algorithm)
    requires SignedAt(front + back, kid, algorithm, checks, k)
    ensures SignedAt(front + [key] + back, kid, algorithm, checks, if k < |front| then k else k + 1)
  {
    hide SigningKey;
    var all, fewer := front + [key] + back, front + back;
    assert all[|front|] == key;
    assert forall i :: 0 <= i < |all| && i != |front| ==> all[i] == fewer[if i < |front| then i else i - 1];
  }

  /** A key meant for it settles the check of a token that it signed, when every such key before it
      merely failed to: the token is accepted exactly when its claims hold. */
  lemma SigningKeySettles(keys: seq<Value>, k: nat, kid: Bytes, algorithm: Bytes, claims: Value,
                          checks: Checks, issuer: Bytes, client: Bytes, nonce: Option<Bytes>)
    requires k < |keys| && SigningKey(keys[k], kid, algorithm) && checks.signed(algorithm, keys[k]).Good?
    requires forall j :: 0 <= j < k && SigningKey(keys[j], kid, algorithm) ==>
               checks.signed(algorithm, keys[j]).Bad?
    ensures CheckedBy(keys, kid, algorithm, claims, checks, issuer, client, nonce) == Ok(claims) <==>
            ClaimsHold(claims, checks.asU64, checks.now, issuer, client, nonce)
  {
    hide SigningKey, ValidateClaims, CheckedBy, ClaimsHold;
    assert SignedAt(keys, kid, algorithm, checks, k);
    AcceptedExactly(keys, kid, algorithm, claims, checks, issuer, client, nonce);
    ValidClaimsMean(claims, checks, issuer, client, nonce);
  }
}
