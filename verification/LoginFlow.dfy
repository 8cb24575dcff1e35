/** The flow object and its driver as they run: fields changed in place, one exchange or clock
    reading at a time, each method against the function that says what it does. */
module LoginFlow {
  import opened Common
  import opened Urls
  import opened Challenges
  import opened CookieJar
  import opened Login
  import Endpoints
  import Forms
  import Grants
  import Json = JsonGrammar
  import LoginBounds
  import Pages
  import Requests
  import Utf8

  /** What a flow shares with others: the clock and the network, how much of them was used, and the
      client's cached keys, which other logins replace between two looks. */
  class Outside {
    const laws: Laws
    var ticks: nat
    var awaits: nat
    var looks: nat
    var keys: Json.Value
    ghost var log: seq<Event>

    constructor (laws: Laws, keys: Json.Value)
      ensures this.laws == laws && ticks == 0 && awaits == 0 && looks == 0
      ensures this.keys == keys && log == []
    {
      this.laws := laws;
      ticks, awaits, looks, this.keys, log := 0, 0, 0, keys, [];
    }

    method Now() returns (now: nat)
      modifies this`ticks
      ensures now == laws.clock(old(ticks)) && ticks == old(ticks) + 1
    {
      now := laws.clock(ticks);
      ticks := ticks + 1;
    }

    /** One request, awaited. */
    method Await(ghost e: Event) returns (outcome: Outcome)
      modifies this`awaits, this`log
      ensures outcome == laws.net(old(awaits)).outcome
      ensures awaits == old(awaits) + 1 && log == old(log) + [e]
    {
      outcome := laws.net(awaits).outcome;
      awaits := awaits + 1;
      log := log + [e];
    }

    /** Read the cached keys. */
    method Look()
      modifies this`keys, this`looks
      ensures keys == Cached(laws, old(looks), old(keys)) && looks == old(looks) + 1
    {
      keys := Cached(laws, looks, keys);
      looks := looks + 1;
    }

    ghost method Note(e: Event)
      modifies this`log
      ensures log == old(log) + [e]
    {
      log := log + [e];
    }
  }

  class AuthFlow {
    const outside: Outside
    var jar: Jar
    var deadline: nat
    var lifecycle: Lifecycle
    var verifier: string
    var state: string
    var nonce: string
    var pending: Option<Pending>
    var client: string
    var loginHint: Option<string>

    ghost predicate Valid()
      reads this, jar
    {
      jar.Valid()
    }

    ghost function Fields(): Flow
      reads this, jar
    {
      Flow(jar.View, deadline, lifecycle, verifier, state, nonce, pending, client, loginHint)
    }

    ghost function State(): World
      reads this, jar, outside
    {
      World(Fields(), outside.ticks, outside.awaits, outside.looks, outside.keys, outside.log)
    }

    constructor (outside: Outside, limit: nat, verifier: string, state: string, nonce: string)
      modifies outside`ticks
      ensures Valid() && fresh(jar) && this.outside == outside
      ensures Fields() == NewFlow(verifier, state, nonce, outside.laws.clock(old(outside.ticks)) + limit)
      ensures outside.ticks == old(outside.ticks) + 1
    {
      var now := outside.Now();
      var empty := new Jar();
      this.outside := outside;
      jar := empty;
      deadline := now + limit;
      lifecycle := Active;
      this.verifier, this.state, this.nonce := verifier, state, nonce;
      pending, client, loginHint := None, "", None;
    }

    method Cancel()
      requires Valid()
      modifies this, outside`ticks
      ensures Valid() && (jar == old(jar) || fresh(jar))
      ensures State() == Login.Cancel(outside.laws, old(State()))
    {
      ExpireIfDue();
      End(Lifecycle.Cancelled);
    }

    method IsActive() returns (active: bool)
      requires Valid()
      modifies this, outside`ticks
      ensures Valid() && (jar == old(jar) || fresh(jar))
      ensures State() == Login.ExpireIfDue(outside.laws, old(State()))
      ensures active <==> State().flow.lifecycle.Active?
    {
      ExpireIfDue();
      active := lifecycle == Active;
    }

    method EnsureActive() returns (r: Result<()>)
      requires Valid()
      modifies this, outside`ticks
      ensures Valid() && (jar == old(jar) || fresh(jar))
      ensures State() == Login.ExpireIfDue(outside.laws, old(State()))
      ensures r == Status(lifecycle)
    {
      ExpireIfDue();
      match lifecycle
      case Active => r := Ok(());
      case Cancelled => r := Err(Error.Cancelled);
      case Expired => r := Err(Error.Expired);
      case Failed => r := Err(Protocol("login flow failed"));
      case Finished => r := Err(Protocol("login flow already finished"));
    }

    method Finish() returns (r: Result<()>)
      requires Valid()
      modifies this, outside`ticks
      ensures Valid() && (jar == old(jar) || fresh(jar))
      ensures State() == Login.Finish(outside.laws, old(State()))
      ensures r == Status(Login.ExpireIfDue(outside.laws, old(State())).flow.lifecycle)
    {
      r := EnsureActive();
      if r.Err? {
        return;
      }
      End(Finished);
    }

    method Fail()
      requires Valid()
      modifies this, outside`ticks
      ensures Valid() && (jar == old(jar) || fresh(jar))
      ensures State() == Login.Fail(outside.laws, old(State()))
    {
      ExpireIfDue();
      End(Lifecycle.Failed);
    }

    method ExpireIfDue()
      requires Valid()
      modifies this, outside`ticks
      ensures Valid() && (jar == old(jar) || fresh(jar))
      ensures State() == Login.ExpireIfDue(outside.laws, old(State()))
    {
      if lifecycle == Active {
        var now := outside.Now();
        if now >= deadline {
          End(Lifecycle.Expired);
        }
      }
    }

    /** Only an active flow takes a new outcome, but every end wipes. */
    method End(to: Lifecycle)
      requires Valid()
      modifies this
      ensures Valid() && fresh(jar)
      ensures State() == Login.End(old(State()), to)
    {
      if lifecycle == Active {
        lifecycle := to;
      }
      jar := new Jar();
      pending := None;
      ClearSecrets();
    }

    method ClearSecrets()
      modifies this`verifier, this`state, this`nonce
      ensures verifier == "" && state == "" && nonce == ""
    {
      verifier, state, nonce := "", "", "";
    }
  }

  // Fetching.

  method Send(flow: AuthFlow, url: Url, ghost cause: Cause) returns (r: Reply<Fetched>)
    requires flow.Valid()
    modifies flow.jar, flow.outside`awaits, flow.outside`log
    ensures flow.Valid()
    ensures (flow.State(), r) == Login.Send(flow.outside.laws, old(flow.State()), url, cause)
  {
    hide FetchedOf;
    if url.scheme != "https" {
      return Refused(Protocol("page URL must use HTTPS"));
    }
    var laws, outside := flow.outside.laws, flow.outside;
    var sentAt := laws.net(outside.awaits).sentAt;
    var cookies := flow.jar.Lines(url, sentAt);
    var outcome := outside.Await(PageAsked(outside.awaits, url, cookies, sentAt, cause));
    match outcome
    case Gone => r := Dropped;
    case Lost => r := Refused(Transport);
    case Answered(at, status, location, lines, body) =>
      flow.jar.Replace(url, lines, at);
      outside.Note(PageCame(Response(url, lines, at), status, location, body));
      r := AsReply(FetchedOf(laws, url, status, location, body));
  }

  // The callback.

  lemma {:induction false} ValuesAppend(query: seq<(string, string)>, pair: (string, string),
                                        name: string)
    ensures Forms.ValuesOf(query + [pair], name) ==
            Forms.ValuesOf(query, name) + if pair.0 == name then [pair.1] else []
  {
    if query == [] {
      assert query + [pair] == [pair];
    } else {
      ValuesAppend(query[1..], pair, name);
      assert (query + [pair])[1..] == query[1..] + [pair];
    }
  }

  lemma {:induction false} ValuesSplit(query: seq<(string, string)>, rest: seq<(string, string)>,
                                       name: string)
    ensures Forms.ValuesOf(query + rest, name) ==
            Forms.ValuesOf(query, name) + Forms.ValuesOf(rest, name)
  {
    if query == [] {
      assert query + rest == rest;
    } else {
      ValuesSplit(query[1..], rest, name);
      assert (query + rest)[1..] == query[1..] + rest;
    }
  }

  /** What a slot holds after part of the query. */
  predicate Holds(slot: Option<string>, query: seq<(string, string)>, name: string) {
    Forms.ValuesOf(query, name) == if slot.Some? then [slot.value] else []
  }

  /** A pair fills an empty slot of its name and leaves the others; a second one is a repeat. */
  lemma SlotTakes(slot: Option<string>, query: seq<(string, string)>, i: nat, name: string)
    requires i < |query| && Holds(slot, query[..i], name)
    ensures query[i].0 != name ==> Holds(slot, query[..i + 1], name)
    ensures query[i].0 == name && slot.None? ==> Holds(Some(query[i].1), query[..i + 1], name)
    ensures query[i].0 == name && slot.Some? ==> |Forms.ValuesOf(query, name)| > 1
  {
    hide Forms.ValuesOf;
    assert query[..i + 1] == query[..i] + [query[i]];
    ValuesAppend(query[..i], query[i], name);
    assert query == query[..i + 1] + query[i + 1..];
    ValuesSplit(query[..i + 1], query[i + 1..], name);
  }

  lemma RepeatRefused(query: seq<(string, string)>, name: string, expected: string)
    requires name == "code" || name == "state" || name == "error"
    requires |Forms.ValuesOf(query, name)| > 1
    ensures CodeIn(query, expected) == Err(Protocol("repeated callback parameter"))
  {
    hide Forms.ValuesOf;
  }

  /** What full slots are worth. */
  lemma SlotsJudged(query: seq<(string, string)>, code: Option<string>, state: Option<string>,
                    error: Option<string>, expected: string)
    requires Holds(code, query, "code") && Holds(state, query, "state") && Holds(error, query, "error")
    ensures CodeIn(query, expected) ==
            if state.None? || expected == "" || state.value != expected then
              Err(Protocol("callback state mismatch"))
            else if error.Some? then
              Err(if error.value == "access_denied" then AuthenticationRejected
                  else Protocol("authorization error on callback"))
            else if code.None? || code.value == "" then Err(Protocol("callback without code"))
            else Ok(code.value)
  {
    hide Forms.ValuesOf;
  }

  /** Fill the three slots and judge them, in one pass over the query. */
  method ReadCallback(query: seq<(string, string)>, expected: string) returns (r: Result<string>)
    ensures r == CodeIn(query, expected)
  {
    hide CodeIn, Forms.ValuesOf, Holds;
    var code: Option<string>, state: Option<string>, error: Option<string> := None, None, None;
    EmptyHold(query);
    for i := 0 to |query|
      invariant Holds(code, query[..i], "code")
      invariant Holds(state, query[..i], "state")
      invariant Holds(error, query[..i], "error")
    {
      var (name, value) := query[i];
      SlotTakes(code, query, i, "code");
      SlotTakes(state, query, i, "state");
      SlotTakes(error, query, i, "error");
      var taken: Option<string> := None;
      if name == "code" {
        taken, code := code, Some(value);
      } else if name == "state" {
        taken, state := state, Some(value);
      } else if name == "error" {
        taken, error := error, Some(value);
      }
      if taken.Some? {
        RepeatRefused(query, name, expected);
        return Err(Protocol("repeated callback parameter"));
      }
    }
    assert query[..|query|] == query;
    SlotsJudged(query, code, state, error, expected);
    if state.None? || expected == "" || state.value != expected {
      return Err(Protocol("callback state mismatch"));
    }
    if error.Some? {
      return Err(if error.value == "access_denied" then AuthenticationRejected
                 else Protocol("authorization error on callback"));
    }
    if code.None? || code.value == "" {
      return Err(Protocol("callback without code"));
    }
    r := Ok(code.value);
  }

  lemma EmptyHold(query: seq<(string, string)>)
    ensures forall name :: Holds(None, query[..0], name)
  {
    assert query[..0] == [];
  }

  method Callback(flow: AuthFlow, location: Url, registered: Url) returns (r: Result<Option<string>>)
    requires flow.Valid()
    modifies flow, flow.outside`ticks
    ensures flow.Valid() && (flow.jar == old(flow.jar) || fresh(flow.jar))
    ensures (flow.State(), r) ==
            Login.Callback(flow.outside.laws, old(flow.State()), location, registered)
  {
    hide CodeIn, SameEndpoint;
    if !SameEndpoint(location, registered) {
      return Ok(None);
    }
    var active := flow.EnsureActive();
    if active.Err? {
      return Err(active.error);
    }
    var code := ReadCallback(location.query, flow.state);
    match code
    case Err(e) => r := Err(e);
    case Ok(c) => r := Ok(Some(c));
  }

  // The exchange.

  method RequestTokens(flow: AuthFlow, app: App, code: string) returns (r: Reply<Grants.Tokens>)
    requires flow.Valid()
    modifies flow.outside`awaits, flow.outside`log
    ensures (flow.State(), r) ==
            Login.RequestTokens(flow.outside.laws, app, old(flow.State()), code)
  {
    hide GrantFields;
    var laws := flow.outside.laws;
    if !laws.fits(Requests.PairsOf(GrantFields(app, code, flow.verifier))) {
      return Refused(Protocol("form request too large"));
    }
    var outcome := flow.outside.Await(CodeAsked(flow.outside.awaits, code, flow.verifier));
    match outcome
    case Gone => r := Dropped;
    case Lost => r := Refused(Transport);
    case Answered(_, status, _, _, body) => r := AsReply(laws.grant(true, status, body));
  }

  /** Check the ID token; a key that is not cached has the keys fetched once and the cache replaced. */
  method VerifyTokens(flow: AuthFlow, app: App, tokens: Grants.Tokens, nonce: string)
      returns (r: Reply<Grants.Tokens>)
    requires flow.Valid()
    modifies flow.outside`awaits, flow.outside`log, flow.outside`keys, flow.outside`looks
    ensures (flow.State(), r) ==
            Login.VerifyTokens(flow.outside.laws, app, old(flow.State()), tokens, nonce)
  {
    hide Login.CheckIdToken, Cached;
    var laws, outside := flow.outside.laws, flow.outside;
    if tokens.idToken.None? {
      return Refused(TokenValidation("missing ID token"));
    }
    outside.Look();
    var known := laws.keyKnown(outside.keys, tokens.idToken.value);
    if known.Err? {
      return Refused(known.error);
    }
    if !known.value {
      var outcome := outside.Await(KeysAsked(outside.awaits));
      if outcome.Gone? {
        return Dropped;
      }
      if outcome.Lost? {
        return Refused(Transport);
      }
      if outcome.status != 200 {
        return Refused(HttpStatus(outcome.status));
      }
      var fetched := laws.readKeys(outcome.body);
      if fetched.Err? {
        return Refused(fetched.error);
      }
      outside.keys := fetched.value;
    }
    r := CheckIdToken(flow, app, tokens, nonce);
  }

  /** The check with the keys as they are cached now, and the session it makes. */
  method CheckIdToken(flow: AuthFlow, app: App, tokens: Grants.Tokens, nonce: string)
      returns (r: Reply<Grants.Tokens>)
    requires flow.Valid() && tokens.idToken.Some?
    modifies flow.outside`keys, flow.outside`looks
    ensures (flow.State(), r) ==
            Login.CheckIdToken(flow.outside.laws, app, old(flow.State()), tokens, nonce)
  {
    var outside := flow.outside;
    outside.Look();
    var subject := outside.laws.verify(outside.laws.wall(outside.awaits), outside.keys,
                                       tokens.idToken.value, app.issuer, app.clientId, Some(nonce));
    if subject.Err? {
      return Refused(subject.error);
    }
    var checked := tokens.(verifiedSubject := subject.value);
    checked := checked.(verifiedIssuer := Some(app.issuer));
    checked := checked.(verifiedClient := Some(app.clientId));
    checked := checked.(verifiedRefresh := checked.refresh);
    r := Done(checked);
  }

  method Redeem(flow: AuthFlow, app: App, code: string) returns (r: Reply<Grants.Tokens>)
    requires flow.Valid()
    modifies flow.outside`awaits, flow.outside`log, flow.outside`keys, flow.outside`looks
    ensures (flow.State(), r) == Login.Redeem(flow.outside.laws, app, old(flow.State()), code)
    ensures forall t :: r == Done(t) <==>
              LoginBounds.RedeemsTo(flow.outside.laws, app, old(flow.State()), code, t)
  {
    hide Login.RequestTokens, Login.VerifyTokens, LoginBounds.RedeemsTo;
    forall t {
      LoginBounds.RedeemsExactly(flow.outside.laws, app, flow.State(), code, t);
    }
    r := RequestTokens(flow, app, code);
    if r.Done? {
      r := VerifyTokens(flow, app, r.value, flow.nonce);
    }
  }

  /** Redeem a code under a guard that ends the login however the exchange comes out. */
  method ExchangeCode(flow: AuthFlow, app: App, code: string) returns (r: Reply<Grants.Tokens>)
    requires flow.Valid()
    modifies flow, flow.outside
    ensures flow.Valid() && (flow.jar == old(flow.jar) || fresh(flow.jar))
    ensures (flow.State(), r) == Login.ExchangeCode(flow.outside.laws, app, old(flow.State()), code)
  {
    hide Login.Redeem, Login.Fail, Login.ExpireIfDue;
    var active := flow.EnsureActive();
    if active.Err? {
      r := Refused(active.error);
    } else {
      r := Redeem(flow, app, code);
      if r.Done? {
        var finished := flow.Finish();
        if finished.Err? {
          r := Refused(finished.error);
        }
      }
    }
    flow.Fail();
  }

  method CompleteAtCallback(flow: AuthFlow, app: App, location: Url)
      returns (r: Reply<Option<AuthStep>>)
    requires flow.Valid()
    modifies flow, flow.outside
    ensures flow.Valid() && (flow.jar == old(flow.jar) || fresh(flow.jar))
    ensures (flow.State(), r) ==
            Login.CompleteAtCallback(flow.outside.laws, app, old(flow.State()), location)
  {
    hide Login.ExpireIfDue, Login.Callback, Login.ExchangeCode, Login.Fail;
    var active := flow.EnsureActive();
    if active.Err? {
      return Refused(active.error);
    }
    var callback := Callback(flow, location, Registered(flow.outside.laws, app));
    match callback
    case Err(e) =>
      flow.Fail();
      r := Refused(e);
    case Ok(None) => r := Done(None);
    case Ok(Some(code)) =>
      var tokens := ExchangeCode(flow, app, code);
      match tokens
      case Done(t) => r := Done(Some(Complete(t)));
      case Refused(e) => r := Refused(e);
      case Dropped => r := Dropped;
  }

  // The driver.

  method Present(flow: AuthFlow, factors: Factors, url: Url, body: Utf8.Bytes)
      returns (r: Reply<AuthStep>)
    requires flow.Valid()
    modifies flow, flow.outside`ticks, flow.outside`log
    ensures flow.Valid() && (flow.jar == old(flow.jar) || fresh(flow.jar))
    ensures (flow.State(), r) ==
            Login.Present(flow.outside.laws, factors, old(flow.State()), url, body)
  {
    hide Forms.Extract, BodyTokens, Login.Fail, ExpectOf;
    var laws := flow.outside.laws;
    var page := Forms.Extract(url, BodyTokens(laws, body), laws.join);
    if page.Err? {
      return Refused(page.error);
    }
    var (kind, form) := page.value;
    var rejection := Pages.Rejection(kind);
    if rejection.Some? {
      flow.Fail();
      return Done(Rejected(rejection.value));
    }
    if !factors.supports(kind) {
      return Refused(UnsupportedFactor);
    }
    var asked := factors.challenges(kind, flow.loginHint);
    if asked.Err? {
      return Refused(asked.error);
    }
    var queue := asked.value;
    if queue == [] {
      return Refused(Protocol("page asks no challenge"));
    }
    var first := queue[0];
    queue := queue[1..];
    flow.pending := Some(Pending(kind, form, ExpectOf(first), queue, []));
    flow.outside.Note(Presented(kind, form, asked.value));
    r := Done(Ask(first));
  }

  /** Follow the server's own redirects to a page or to the callback. */
  method Resolve(flow: AuthFlow, app: App, factors: Factors, first: Fetched, afterPost: bool)
      returns (r: Reply<AuthStep>)
    requires flow.Valid()
    modifies flow, flow.jar, flow.outside
    ensures flow.Valid() && (flow.jar == old(flow.jar) || fresh(flow.jar))
    ensures (flow.State(), r) ==
            Login.Resolve(flow.outside.laws, app, factors, old(flow.State()), first, afterPost, 0)
  {
    hide Turn;
    var fetched, posted := first, afterPost;
    var followed := 0;
    while true
      invariant flow.Valid() && (flow.jar == old(flow.jar) || fresh(flow.jar))
      invariant followed <= MAX_REDIRECTS
      invariant Login.Resolve(flow.outside.laws, app, factors, flow.State(), fetched, posted, followed)
             == Login.Resolve(flow.outside.laws, app, factors, old(flow.State()), first, afterPost, 0)
      decreases MAX_REDIRECTS - followed
    {
      var turned := TakeTurn(flow, app, factors, fetched, posted, followed);
      match turned
      case Stop(reply) => return reply;
      case Go(next) =>
        fetched, posted := next, false;
        followed := followed + 1;
    }
  }

  /** The body of the loop, up to the next response. */
  method TakeTurn(flow: AuthFlow, app: App, factors: Factors, fetched: Fetched, posted: bool,
                  followed: nat)
      returns (r: Turned)
    requires flow.Valid() && followed <= MAX_REDIRECTS
    modifies flow, flow.jar, flow.outside
    ensures flow.Valid() && (flow.jar == old(flow.jar) || fresh(flow.jar))
    ensures (flow.State(), r) ==
            Turn(flow.outside.laws, app, factors, old(flow.State()), fetched, posted, followed)
    ensures r.Go? ==> followed < MAX_REDIRECTS
  {
    hide Login.ExpireIfDue, Login.Present, Login.CompleteAtCallback, Login.Send;
    var active := flow.EnsureActive();
    if active.Err? {
      return Stop(Refused(active.error));
    }
    match fetched
    case Page(url, status, body) =>
      if status != 200 {
        return Stop(Refused(HttpStatus(status)));
      }
      var reply := Present(flow, factors, url, body);
      r := Stop(reply);
    case Redirect(location, sameOrigin, kind) =>
      if posted && RepeatsRequest(kind) {
        return Stop(Refused(Protocol("unexpected redirect")));
      }
      var complete := CompleteAtCallback(flow, app, location);
      if complete.Refused? {
        return Stop(Refused(complete.error));
      }
      if complete.Dropped? {
        return Stop(Dropped);
      }
      if complete.value.Some? {
        return Stop(Done(complete.value.value));
      }
      if !sameOrigin {
        return Stop(Refused(Protocol("unexpected redirect")));
      }
      if followed == MAX_REDIRECTS {
        return Stop(Refused(Protocol("too many redirects")));
      }
      var next := Send(flow, location, Followed);
      match next
      case Refused(e) => r := Stop(Refused(e));
      case Dropped => r := Stop(Dropped);
      case Done(f) => r := Go(f);
  }

  method Visit(flow: AuthFlow, app: App, factors: Factors, url: Url, ghost cause: Cause, posted: bool)
      returns (r: Reply<AuthStep>)
    requires flow.Valid() && posted == cause.Posted?
    modifies flow, flow.jar, flow.outside
    ensures flow.Valid() && (flow.jar == old(flow.jar) || fresh(flow.jar))
    ensures (flow.State(), r) ==
            Login.Visit(flow.outside.laws, app, factors, old(flow.State()), url, cause)
  {
    hide Login.Send, Login.Resolve;
    var next := Send(flow, url, cause);
    match next
    case Refused(e) => r := Refused(e);
    case Dropped => r := Dropped;
    case Done(f) => r := Resolve(flow, app, factors, f, posted);
  }

  method FirstPage(flow: AuthFlow, app: App, factors: Factors, start: Start)
      returns (r: Reply<AuthStep>)
    requires flow.Valid()
    modifies flow, flow.jar, flow.outside
    ensures flow.Valid() && (flow.jar == old(flow.jar) || fresh(flow.jar))
    ensures (flow.State(), r) ==
            Login.FirstPage(flow.outside.laws, app, factors, start, old(flow.State()))
  {
    hide Login.ExpireIfDue, Login.Visit, Endpoints.AuthorizationUrl, LoginClient;
    var active := flow.EnsureActive();
    if active.Err? {
      return Refused(active.error);
    }
    var request := Endpoints.Request(app.clientId, app.redirectText, start.loginHint, start.scopes,
                                     flow.verifier, flow.state, flow.nonce);
    var url := Endpoints.AuthorizationUrl(app.authorization, request, flow.outside.laws.digest);
    if url.Err? {
      return Refused(url.error);
    }
    flow.client := LoginClient(app);
    flow.loginHint := start.loginHint;
    r := Visit(flow, app, factors, url.value, Began, false);
  }

  /** Post the page's form with its factor's fields. */
  method PostPage(flow: AuthFlow, app: App, factors: Factors, page: Pending)
      returns (r: Reply<AuthStep>)
    requires flow.Valid()
    modifies flow, flow.jar, flow.outside
    ensures flow.Valid() && (flow.jar == old(flow.jar) || fresh(flow.jar))
    ensures (flow.State(), r) ==
            Login.PostPage(flow.outside.laws, app, factors, old(flow.State()), page)
  {
    hide Login.Visit, Forms.Submitted;
    if !factors.supports(page.kind) {
      return Refused(UnsupportedFactor);
    }
    var answers := factors.fields(page.kind, page.answers);
    if answers.Err? {
      return Refused(answers.error);
    }
    var fields := Forms.Submit(page.form, answers.value);
    if fields.Err? {
      return Refused(fields.error);
    }
    if !flow.outside.laws.fits(Requests.PairsOf(fields.value)) {
      return Refused(Protocol("form request too large"));
    }
    r := Visit(flow, app, factors, page.form.action, Posted(page, fields.value), true);
  }

  method AnswerPage(flow: AuthFlow, app: App, factors: Factors, answer: Answer)
      returns (r: Reply<AuthStep>)
    requires flow.Valid()
    modifies flow, flow.jar, flow.outside
    ensures flow.Valid() && (flow.jar == old(flow.jar) || fresh(flow.jar))
    ensures (flow.State(), r) ==
            Login.AnswerPage(flow.outside.laws, app, factors, old(flow.State()), answer)
  {
    hide Login.ExpireIfDue, Login.PostPage, Check, ExpectOf, LoginClient;
    var active := flow.EnsureActive();
    if active.Err? {
      return Refused(active.error);
    }
    if flow.pending.None? {
      return Refused(Protocol("no challenge is waiting for an answer"));
    }
    var page := flow.pending.value;
    flow.pending := None;
    if flow.client != LoginClient(app) {
      return Refused(Protocol("login flow belongs to another client"));
    }
    var checked := Check(page.expected, answer);
    if checked.Err? {
      return Refused(checked.error);
    }
    page := page.(answers := page.answers + [answer]);
    if page.queue != [] {
      var next := page.queue[0];
      page := page.(expected := ExpectOf(next), queue := page.queue[1..]);
      flow.pending := Some(page);
      return Done(Ask(next));
    }
    r := PostPage(flow, app, factors, page);
  }

  /** What the guard of a step does when the step ends. */
  method Guard(flow: AuthFlow, r: Reply<AuthStep>)
    requires flow.Valid()
    modifies flow, flow.outside`ticks, flow.outside`log
    ensures flow.Valid() && (flow.jar == old(flow.jar) || fresh(flow.jar))
    ensures (flow.State(), r) == Guarded(flow.outside.laws, (old(flow.State()), r))
  {
    hide Login.Fail;
    if !r.Done? {
      flow.Fail();
    }
    flow.outside.Note(Returned(r));
  }

  method BeginLogin(flow: AuthFlow, app: App, factors: Factors, start: Start)
      returns (r: Reply<AuthStep>)
    requires flow.Valid()
    modifies flow, flow.jar, flow.outside
    ensures flow.Valid() && (flow.jar == old(flow.jar) || fresh(flow.jar))
    ensures flow.State() ==
            Called(flow.outside.laws, old(flow.State()), Begin(app, factors, start))
    ensures r == Login.FirstPage(flow.outside.laws, app, factors, start,
                                 Log(old(flow.State()), Entered(Begin(app, factors, start)))).1
  {
    hide Login.FirstPage, Guarded;
    flow.outside.Note(Entered(Begin(app, factors, start)));
    r := FirstPage(flow, app, factors, start);
    Guard(flow, r);
  }

  method AdvanceLogin(flow: AuthFlow, app: App, factors: Factors, answer: Answer)
      returns (r: Reply<AuthStep>)
    requires flow.Valid()
    modifies flow, flow.jar, flow.outside
    ensures flow.Valid() && (flow.jar == old(flow.jar) || fresh(flow.jar))
    ensures flow.State() ==
            Called(flow.outside.laws, old(flow.State()), Advance(app, factors, answer))
    ensures r == Login.AnswerPage(flow.outside.laws, app, factors,
                                  Log(old(flow.State()), Entered(Advance(app, factors, answer))),
                                  answer).1
  {
    hide Login.AnswerPage, Guarded;
    flow.outside.Note(Entered(Advance(app, factors, answer)));
    r := AnswerPage(flow, app, factors, answer);
    Guard(flow, r);
  }
}
