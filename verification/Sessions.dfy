/** Sessions after a login: what binds tokens to a verified subject, what a refresh asks and when, and
    what it keeps. */
module Sessions {
  import opened Common
  import opened Utf8
  import opened Grants
  import opened Login
  import LoginProofs
  import Json = JsonGrammar
  import Requests

  /** What a session asks of the server. */
  datatype Asked = RefreshAsked(token: Bytes) | SessionKeysAsked | UserAsked(access: Bytes)

  /** How many requests and looks at the client's cached keys were made, those keys as last known, and
      what was asked. */
  datatype Progress = Progress(awaits: nat, looks: nat, keys: Json.Value, asked: seq<Asked>)

  /** The subject a session was verified for, by this client. */
  function SessionSubject(app: App, tokens: Tokens): Result<Bytes> {
    if tokens.verifiedSubject.None? then Err(TokenValidation("unverified session"))
    else if tokens.verifiedIssuer != Some(app.issuer) || tokens.verifiedClient != Some(app.clientId) then
      Err(TokenValidation("session issuer or client mismatch"))
    else Ok(tokens.verifiedSubject.value)
  }

  /** The subject and refresh token of a session that may be refreshed. */
  function Refreshable(app: App, tokens: Tokens): Result<(Bytes, Bytes)> {
    match SessionSubject(app, tokens)
    case Err(e) => Err(e)
    case Ok(subject) =>
      if tokens.refresh.None? then Err(Protocol("session has no refresh token"))
      else if tokens.verifiedRefresh != tokens.refresh then
        Err(TokenValidation("refresh token changed"))
      else Ok((subject, tokens.refresh.value))
  }

  function RefreshFields(app: App, token: Bytes): Requests.Pairs {
    Requests.PairsOf([("grant_type", "refresh_token"), ("client_id", app.clientId)])
    + [(Requests.StringBytes("refresh_token"), token)]
  }

  /** One request and what came of it. */
  function Requested(laws: Laws, p: Progress, what: Asked): (Progress, Outcome) {
    (p.(awaits := p.awaits + 1, asked := p.asked + [what]), laws.net(p.awaits).outcome)
  }

  /** The subject of an ID token, checked without a nonce; an unknown key has the keys fetched once
      and the cached ones replaced. */
  function TokenSubject(laws: Laws, app: App, p: Progress, idToken: Bytes)
    : (Progress, Reply<Option<Bytes>>)
  {
    var seen := LookedUp(laws, p);
    match laws.keyKnown(seen.keys, idToken)
    case Err(e) => (seen, Refused(e))
    case Ok(true) => CheckedSubject(laws, app, seen, idToken)
    case Ok(false) =>
      var (asked, outcome) := Requested(laws, seen, SessionKeysAsked);
      match outcome
      case Gone => (asked, Dropped)
      case Lost => (asked, Refused(Transport))
      case Answered(_, status, _, _, body) =>
        if status != 200 then (asked, Refused(HttpStatus(status)))
        else
          match laws.readKeys(body)
          case Err(e) => (asked, Refused(e))
          case Ok(keys) => CheckedSubject(laws, app, asked.(keys := keys), idToken)
  }

  /** The check looks at the cache again. */
  function CheckedSubject(laws: Laws, app: App, p: Progress, idToken: Bytes)
    : (Progress, Reply<Option<Bytes>>)
  {
    var seen := LookedUp(laws, p);
    (seen, AsReply(laws.verify(laws.wall(p.awaits), seen.keys, idToken, app.issuer, app.clientId, None)))
  }

  function LookedUp(laws: Laws, p: Progress): Progress {
    p.(keys := Cached(laws, p.looks, p.keys), looks := p.looks + 1)
  }

  function UserSubject(laws: Laws, p: Progress, access: Bytes): (Progress, Reply<Option<Bytes>>) {
    var (asked, outcome) := Requested(laws, p, UserAsked(access));
    match outcome
    case Gone => (asked, Dropped)
    case Lost => (asked, Refused(Transport))
    case Answered(_, status, _, _, body) => (asked, AsReply(laws.user(status, body)))
  }

  function Granted(laws: Laws, app: App, p: Progress, token: Bytes): (Progress, Reply<Tokens>) {
    if !laws.fits(RefreshFields(app, token)) then (p, Refused(Protocol("form request too large")))
    else
      var (asked, outcome) := Requested(laws, p, RefreshAsked(token));
      match outcome
      case Gone => (asked, Dropped)
      case Lost => (asked, Refused(Transport))
      case Answered(_, status, _, _, body) => (asked, AsReply(laws.grant(false, status, body)))
  }

  /** Who the new tokens are for: their ID token's subject, or else the user's. */
  function NewSubject(laws: Laws, app: App, p: Progress, granted: Tokens)
    : (Progress, Reply<Option<Bytes>>)
  {
    if granted.idToken.Some? then TokenSubject(laws, app, p, granted.idToken.value)
    else UserSubject(laws, p, granted.access)
  }

  /** The session new tokens make for a subject; a missing refresh token is the previous one. */
  function Renewed(app: App, granted: Tokens, subject: Bytes, token: Bytes): Tokens {
    var kept := if granted.refresh.Some? then granted.refresh else Some(token);
    granted.(refresh := kept, verifiedRefresh := kept, verifiedSubject := Some(subject),
             verifiedIssuer := Some(app.issuer), verifiedClient := Some(app.clientId))
  }

  function Refreshed(laws: Laws, app: App, p: Progress, previous: Tokens): (Progress, Reply<Tokens>) {
    match Refreshable(app, previous)
    case Err(e) => (p, Refused(e))
    case Ok((subject, token)) =>
      var (asked, granted) := Granted(laws, app, p, token);
      if !granted.Done? then (asked, granted)
      else
        var (proved, found) := NewSubject(laws, app, asked, granted.value);
        match found
        case Refused(e) => (proved, Refused(e))
        case Dropped => (proved, Dropped)
        case Done(who) =>
          if who != Some(subject) then
            (proved, Refused(TokenValidation("refreshed subject mismatch")))
          else (proved, Done(Renewed(app, granted.value, subject, token)))
  }

  // What a refresh does.

  /** The server's proof that tokens are for a subject, by a refresh from `before` to `after`: they are
      the reply to its first request, and either their own ID token was verified, with keys asked for
      exactly when the cache did not hold its own, or the user information asked for with their access
      token names the subject. */
  predicate Proved(laws: Laws, app: App, before: Progress, after: Progress, t: Tokens, subject: Bytes) {
    var n, reply := before.awaits, laws.net(before.awaits).outcome;
    && reply.Answered? && laws.grant(false, reply.status, reply.body).Ok?
    && var granted := laws.grant(false, reply.status, reply.body).value;
       && t.access == granted.access && t.idToken == granted.idToken
       && (granted.refresh.Some? ==> t.refresh == granted.refresh)
       && if t.idToken.Some? then
            var fetched := after.awaits == n + 2;
            && laws.keyKnown(Cached(laws, before.looks, before.keys), t.idToken.value) == Ok(!fetched)
            && (fetched ==> LoginProofs.FetchedAt(laws, n + 1).Some?)
            && laws.verify(
                 laws.wall(after.awaits),
                 LoginProofs.SecondLook(laws, before.looks, before.keys, n + 1, fetched),
                 t.idToken.value, app.issuer, app.clientId, None) == Ok(Some(subject))
          else
            var user := laws.net(n + 1).outcome;
            && after.awaits == n + 2 && |after.asked| == |before.asked| + 2
            && after.asked[|before.asked| + 1] == UserAsked(t.access)
            && user.Answered? && laws.user(user.status, user.body) == Ok(Some(subject))
  }

  /** A session that may not be refreshed asks nothing; any other asks for the refresh first, at most
      one more thing after it, and never repeats it. */
  predicate AsksInOrder(app: App, before: Progress, after: Progress, previous: Tokens) {
    var n := |before.asked|;
    match Refreshable(app, previous)
    case Err(_) => after == before
    case Ok((_, token)) =>
      && n <= |after.asked| <= n + 2 && after.asked[..n] == before.asked
      && (|after.asked| > n ==> after.asked[n] == RefreshAsked(token))
      && (|after.asked| > n + 1 ==> !after.asked[n + 1].RefreshAsked?)
  }

  /** The session a refresh of another gives: that one was verified for this client and still has its own
      refresh token; the form is small enough; the grant request is answered with tokens; and either
      their ID token passes with the client's keys, fetched exactly when the cache lacks its own, or,
      without one, the user information they open names the same subject. */
  predicate RefreshesTo(laws: Laws, app: App, p: Progress, previous: Tokens, t: Tokens) {
    var n, reply, user := p.awaits, laws.net(p.awaits).outcome, laws.net(p.awaits + 1).outcome;
    && previous.verifiedSubject.Some? && previous.refresh.Some?
    && previous.verifiedIssuer == Some(app.issuer) && previous.verifiedClient == Some(app.clientId)
    && previous.verifiedRefresh == previous.refresh
    && laws.fits(Requests.PairsOf([("grant_type", "refresh_token"), ("client_id", app.clientId)])
                 + [(Requests.StringBytes("refresh_token"), previous.refresh.value)])
    && reply.Answered? && laws.grant(false, reply.status, reply.body).Ok?
    && var granted := laws.grant(false, reply.status, reply.body).value;
       var kept := if granted.refresh.Some? then granted.refresh else previous.refresh;
       && (if granted.idToken.Some? then
             var known := laws.keyKnown(Cached(laws, p.looks, p.keys), granted.idToken.value);
             var fetched := known == Ok(false);
             && (known == Ok(true) || (fetched && LoginProofs.FetchedAt(laws, n + 1).Some?))
             && laws.verify(
                  laws.wall(if fetched then n + 2 else n + 1),
                  LoginProofs.SecondLook(laws, p.looks, p.keys, n + 1, fetched),
                  granted.idToken.value, app.issuer, app.clientId, None)
                  == Ok(previous.verifiedSubject)
           else
             user.Answered? && laws.user(user.status, user.body) == Ok(previous.verifiedSubject))
       && t == granted.(refresh := kept, verifiedRefresh := kept,
                        verifiedSubject := previous.verifiedSubject,
                        verifiedIssuer := Some(app.issuer), verifiedClient := Some(app.clientId))
  }

  /** A refresh gives a session exactly when the previous one refreshes to it. */
  lemma RefreshesExactly(laws: Laws, app: App, p: Progress, previous: Tokens, t: Tokens)
    ensures Refreshed(laws, app, p, previous).1 == Done(t) <==> RefreshesTo(laws, app, p, previous, t)
  {
    hide TokenSubject, Requests.PairsOf, Requests.StringBytes;
    var reply := laws.net(p.awaits).outcome;
    if Refreshable(app, previous).Ok? {
      var (asked, granted) := Granted(laws, app, p, Refreshable(app, previous).value.1);
      if granted.Done? && granted.value.idToken.Some? {
        SubjectsExactly(laws, app, asked, granted.value.idToken.value,
                        Some(Refreshable(app, previous).value.0));
      }
    }
  }

  lemma SubjectsExactly(laws: Laws, app: App, p: Progress, idToken: Bytes, subject: Option<Bytes>)
    ensures TokenSubject(laws, app, p, idToken).1 == Done(subject) <==>
            var known := laws.keyKnown(Cached(laws, p.looks, p.keys), idToken);
            var fetched := known == Ok(false);
            && (known == Ok(true) || (fetched && LoginProofs.FetchedAt(laws, p.awaits).Some?))
            && laws.verify(laws.wall(if fetched then p.awaits + 1 else p.awaits),
                           LoginProofs.SecondLook(laws, p.looks, p.keys, p.awaits, fetched),
                           idToken, app.issuer, app.clientId, None) == Ok(subject)
  {
  }

  lemma RefreshAsksInOrder(laws: Laws, app: App, p: Progress, previous: Tokens)
    ensures AsksInOrder(app, p, Refreshed(laws, app, p, previous).0, previous)
  {
    hide RefreshFields;
  }

  lemma RefreshBinds(laws: Laws, app: App, p: Progress, previous: Tokens)
    requires Refreshed(laws, app, p, previous).1.Done?
    ensures var (after, r) := Refreshed(laws, app, p, previous);
            && SessionSubject(app, previous).Ok?
            && SessionSubject(app, r.value) == SessionSubject(app, previous)
            && r.value.refresh.Some? && r.value.verifiedRefresh == r.value.refresh
            && |after.asked| > |p.asked|
            && Proved(laws, app, p, after, r.value, SessionSubject(app, previous).value)
  {
    hide RefreshFields;
  }

  /** A client whose sessions are refreshed. */
  class SessionClient {
    const app: App
    const laws: Laws
    var awaits: nat
    var looks: nat
    var keys: Json.Value
    ghost var asked: seq<Asked>

    ghost function State(): Progress
      reads this
    {
      Progress(awaits, looks, keys, asked)
    }

    constructor (app: App, laws: Laws, keys: Json.Value)
      ensures this.app == app && this.laws == laws && State() == Progress(0, 0, keys, [])
    {
      this.app, this.laws := app, laws;
      awaits, looks, this.keys, asked := 0, 0, keys, [];
    }

    method Send(ghost what: Asked) returns (outcome: Outcome)
      modifies this`awaits, this`asked
      ensures (State(), outcome) == Requested(laws, old(State()), what)
    {
      outcome := laws.net(awaits).outcome;
      awaits := awaits + 1;
      asked := asked + [what];
    }

    /** Read the cached keys; other tasks of the client may have replaced them. */
    method Look()
      modifies this`keys, this`looks
      ensures State() == LookedUp(laws, old(State()))
    {
      keys := Cached(laws, looks, keys);
      looks := looks + 1;
    }

    method VerifySubject(idToken: Bytes) returns (r: Reply<Option<Bytes>>)
      modifies this
      ensures (State(), r) == TokenSubject(laws, app, old(State()), idToken)
    {
      hide Cached;
      Look();
      var known := laws.keyKnown(keys, idToken);
      if known.Err? {
        return Refused(known.error);
      }
      if !known.value {
        var outcome := Send(SessionKeysAsked);
        if outcome.Gone? {
          return Dropped;
        }
        if outcome.Lost? {
          return Refused(Transport);
        }
        if outcome.status != 200 {
          return Refused(HttpStatus(outcome.status));
        }
        var fetched := laws.readKeys(outcome.body);
        if fetched.Err? {
          return Refused(fetched.error);
        }
        keys := fetched.value;
      }
      Look();
      var subject := laws.verify(laws.wall(awaits), keys, idToken, app.issuer, app.clientId, None);
      match subject
      case Ok(who) => r := Done(who);
      case Err(e) => r := Refused(e);
    }

    /** Refresh a session: its own binding is checked before anything is asked, and the new tokens are
        accepted only for the same subject, to which their refresh token is then bound. */
    method RefreshTokens(previous: Tokens) returns (r: Reply<Tokens>)
      modifies this
      ensures (State(), r) == Refreshed(laws, app, old(State()), previous)
      ensures forall t :: r == Done(t) <==> RefreshesTo(laws, app, old(State()), previous, t)
      ensures AsksInOrder(app, old(State()), State(), previous)
      ensures Refreshable(app, previous).Err? ==> r == Refused(Refreshable(app, previous).error)
      ensures r.Done? ==>
                && SessionSubject(app, previous).Ok?
                && SessionSubject(app, r.value) == SessionSubject(app, previous)
                && r.value.refresh.Some? && r.value.verifiedRefresh == r.value.refresh
                && |State().asked| > |old(State()).asked|
                && Proved(laws, app, old(State()), State(), r.value,
                          SessionSubject(app, previous).value)
    {
      hide RefreshFields, TokenSubject, Proved, AsksInOrder, RefreshesTo;
      forall t {
        RefreshesExactly(laws, app, State(), previous, t);
      }
      RefreshAsksInOrder(laws, app, State(), previous);
      if Refreshed(laws, app, State(), previous).1.Done? {
        RefreshBinds(laws, app, State(), previous);
      }
      var subject := SessionSubject(app, previous);
      if subject.Err? {
        return Refused(subject.error);
      }
      if previous.refresh.None? {
        return Refused(Protocol("session has no refresh token"));
      }
      var token := previous.refresh.value;
      if previous.verifiedRefresh != Some(token) {
        return Refused(TokenValidation("refresh token changed"));
      }
      if !laws.fits(RefreshFields(app, token)) {
        return Refused(Protocol("form request too large"));
      }
      var outcome := Send(RefreshAsked(token));
      if outcome.Gone? {
        return Dropped;
      }
      if outcome.Lost? {
        return Refused(Transport);
      }
      var granted := laws.grant(false, outcome.status, outcome.body);
      if granted.Err? {
        return Refused(granted.error);
      }
      var tokens := granted.value;
      var found := FindSubject(tokens);
      if found.Refused? {
        return Refused(found.error);
      }
      if found.Dropped? {
        return Dropped;
      }
      if found.value != Some(subject.value) {
        return Refused(TokenValidation("refreshed subject mismatch"));
      }
      if tokens.refresh.None? {
        tokens := tokens.(refresh := Some(token));
      }
      tokens := tokens.(verifiedSubject := Some(subject.value));
      tokens := tokens.(verifiedIssuer := Some(app.issuer));
      tokens := tokens.(verifiedClient := Some(app.clientId));
      tokens := tokens.(verifiedRefresh := tokens.refresh);
      r := Done(tokens);
    }

    method FindSubject(tokens: Tokens) returns (r: Reply<Option<Bytes>>)
      modifies this
      ensures (State(), r) == NewSubject(laws, app, old(State()), tokens)
    {
      hide TokenSubject;
      if tokens.idToken.Some? {
        r := VerifySubject(tokens.idToken.value);
        return;
      }
      var outcome := Send(UserAsked(tokens.access));
      match outcome
      case Gone => r := Dropped;
      case Lost => r := Refused(Transport);
      case Answered(_, status, _, _, body) => r := AsReply(laws.user(status, body));
    }
  }

  // Refreshing again and again.

  function Chain(laws: Laws, app: App, step: (Progress, Reply<Tokens>), times: nat)
    : (Progress, Reply<Tokens>)
    decreases times
  {
    if times == 0 || !step.1.Done? then step
    else Chain(laws, app, Refreshed(laws, app, step.0, step.1.value), times - 1)
  }

  /** A chain's last refresh starts from the chain before it. */
  lemma {:induction false} ChainLast(laws: Laws, app: App, step: (Progress, Reply<Tokens>), times: nat)
    requires times > 0 && Chain(laws, app, step, times).1.Done?
    ensures var (before, previous) := Chain(laws, app, step, times - 1);
            previous.Done? && Chain(laws, app, step, times) == Refreshed(laws, app, before, previous.value)
    decreases times
  {
    hide Refreshed;
    if times > 1 {
      ChainLast(laws, app, Refreshed(laws, app, step.0, step.1.value), times - 1);
    }
  }

  /** However often a session is refreshed, its subject never changes, the last refresh proved the last
      tokens to be that subject's, and their refresh token is bound to it. */
  lemma {:induction false} ChainKeepsSubject(laws: Laws, app: App, p: Progress, session: Tokens,
                                             times: nat)
    requires times > 0 && Chain(laws, app, (p, Done(session)), times).1.Done?
    ensures var before := Chain(laws, app, (p, Done(session)), times - 1).0;
            var (after, last) := Chain(laws, app, (p, Done(session)), times);
            && SessionSubject(app, session).Ok?
            && SessionSubject(app, last.value) == SessionSubject(app, session)
            && last.value.refresh.Some? && last.value.verifiedRefresh == last.value.refresh
            && |before.asked| < |after.asked|
            && Proved(laws, app, before, after, last.value, SessionSubject(app, session).value)
    decreases times
  {
    hide Refreshed, Proved, SessionSubject;
    ChainLast(laws, app, (p, Done(session)), times);
    var (before, previous) := Chain(laws, app, (p, Done(session)), times - 1);
    RefreshBinds(laws, app, before, previous.value);
    if times > 1 {
      ChainKeepsSubject(laws, app, p, session, times - 1);
    }
  }
}
