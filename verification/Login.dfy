/** One login: what each step of the flow and its driver does, as functions from a world to the
    next. Every await is one exchange with the server or a drop; every clock reading is counted. */
module Login {
  import opened Common
  import opened Utf8
  import opened Urls
  import opened Pages
  import opened Forms
  import opened Challenges
  import opened CookieJar
  import Endpoints
  import Grants
  import Requests
  import Json = JsonGrammar

  const MAX_REDIRECTS: nat := 5

  // The surroundings.

  /** How an await ends: the caller drops it, the transport fails, or a response arrives. */
  datatype Outcome =
    | Gone
    | Lost
    | Answered(at: nat, status: nat, location: Option<string>, cookies: Lines, body: Bytes)

  datatype Exchange = Exchange(sentAt: nat, outcome: Outcome)

  /** The clocks, the server, what other logins of the client put in the cache of keys before each
      look at it, the transport's limit and the libraries. */
  datatype Laws = Laws(
    clock: nat -> nat,
    wall: nat -> Option<nat>,
    net: nat -> Exchange,
    others: nat -> Option<Json.Value>,
    parse: string -> Url,
    join: Join,
    html: Bytes -> seq<Token>,
    digest: string -> Result<string>,
    fits: Requests.Pairs -> bool,
    grant: (bool, nat, Bytes) -> Result<Grants.Tokens>,
    user: (nat, Bytes) -> Result<Option<Bytes>>,
    readKeys: Bytes -> Result<Json.Value>,
    keyKnown: (Json.Value, Bytes) -> Result<bool>,
    verify: (Option<nat>, Json.Value, Bytes, string, string, Option<string>) -> Result<Option<Bytes>>)

  datatype Client = Client(
    issuer: string,
    clientId: string,
    redirectText: string,
    authorization: Url)

  const NOWHERE: Url := Url("", "", None, None, None, "", [], None)

  /** A configured client; its issuer and callback are URLs, whose text holds no space. */
  type App = c: Client | ' ' !in c.issuer && ' ' !in c.redirectText
    witness Client("", "", "", NOWHERE)

  /** The registered callback as a URL. */
  function Registered(laws: Laws, app: App): Url {
    laws.parse(app.redirectText)
  }

  datatype Start = Start(loginHint: Option<string>, scopes: seq<string>)

  /** The factors that can answer pages. */
  datatype Factors = Factors(
    supports: PageKind -> bool,
    challenges: (PageKind, Option<string>) -> Result<seq<Challenge>>,
    fields: (PageKind, seq<Answer>) -> Result<seq<(string, string)>>)

  // The flow.

  datatype Lifecycle = Active | Cancelled | Expired | Failed | Finished

  /** A page between two calls, part-way through its challenges: `expected` checks the next answer,
      `queue` comes after it, and `answers` have been accepted. */
  datatype Pending = Pending(
    kind: PageKind,
    form: Form,
    expected: Expect,
    queue: seq<Challenge>,
    answers: seq<Answer>)

  datatype Flow = Flow(
    jar: Stored,
    deadline: nat,
    lifecycle: Lifecycle,
    verifier: string,
    state: string,
    nonce: string,
    pending: Option<Pending>,
    client: string,
    loginHint: Option<string>)

  datatype AuthStep = Ask(challenge: Challenge) | Complete(tokens: Grants.Tokens) | Rejected(reason: string)

  /** How a step ends: with a value, with an error, or dropped by its caller. */
  datatype Reply<+T> = Done(value: T) | Refused(error: Error) | Dropped

  /** What a caller can do. */
  datatype Call =
    | Begin(app: App, factors: Factors, start: Start)
    | Advance(app: App, factors: Factors, answer: Answer)
    | CancelLogin
    | AskIfActive
    | Redeeming(app: App, code: string)
    | AbandonRedeeming

  /** Why a page was requested. */
  datatype Cause =
    | Began
    | Followed
    | Posted(page: Pending, fields: seq<(string, string)>)

  /** What is done to a login and what it does, in order; requests carry the number of requests
      before them. */
  datatype Event =
    | Entered(call: Call)
    | PageAsked(n: nat, url: Url, cookies: Lines, at: nat, cause: Cause)
    | PageCame(response: Response, status: nat, location: Option<string>, body: Bytes)
    | Presented(kind: PageKind, form: Form, challenges: seq<Challenge>)
    | CodeAsked(n: nat, code: string, verifier: string)
    | KeysAsked(n: nat)
    | Returned(reply: Reply<AuthStep>)

  /** The flow and what it shares with others: the clocks, the network and the looks at the client's
      cached keys so far, those keys as this login last knew them, and its log. */
  datatype World = World(
    flow: Flow,
    ticks: nat,
    awaits: nat,
    looks: nat,
    keys: Json.Value,
    log: seq<Event>)

  // The lifecycle.

  function Ended(flow: Flow, to: Lifecycle): Flow {
    flow.(lifecycle := if flow.lifecycle.Active? then to else flow.lifecycle,
          jar := map[], pending := None, verifier := "", state := "", nonce := "")
  }

  function End(w: World, to: Lifecycle): World {
    w.(flow := Ended(w.flow, to))
  }

  function ExpireIfDue(laws: Laws, w: World): World {
    if !w.flow.lifecycle.Active? then w
    else if laws.clock(w.ticks) >= w.flow.deadline then End(w, Lifecycle.Expired).(ticks := w.ticks + 1)
    else w.(ticks := w.ticks + 1)
  }

  function Status(lifecycle: Lifecycle): Result<()> {
    match lifecycle
    case Active => Ok(())
    case Cancelled => Err(Error.Cancelled)
    case Expired => Err(Error.Expired)
    case Failed => Err(Protocol("login flow failed"))
    case Finished => Err(Protocol("login flow already finished"))
  }

  function Fail(laws: Laws, w: World): World {
    End(ExpireIfDue(laws, w), Failed)
  }

  function Cancel(laws: Laws, w: World): World {
    End(ExpireIfDue(laws, w), Lifecycle.Cancelled)
  }

  function Finish(laws: Laws, w: World): World {
    var w := ExpireIfDue(laws, w);
    if w.flow.lifecycle.Active? then End(w, Finished) else w
  }

  function Log(w: World, e: Event): World {
    w.(log := w.log + [e])
  }

  /** One request is made. */
  function Sent(w: World, e: Event): World {
    Log(w, e).(awaits := w.awaits + 1)
  }

  // Fetching.

  datatype RedirectKind = MovedPermanently | Found | SeeOther | TemporaryRedirect | PermanentRedirect

  function KindOf(status: nat): Option<RedirectKind> {
    if status == 301 then Some(MovedPermanently)
    else if status == 302 then Some(Found)
    else if status == 303 then Some(SeeOther)
    else if status == 307 then Some(TemporaryRedirect)
    else if status == 308 then Some(PermanentRedirect)
    else None
  }

  predicate RepeatsRequest(kind: RedirectKind) {
    kind.TemporaryRedirect? || kind.PermanentRedirect?
  }

  datatype Fetched =
    | Page(url: Url, status: nat, body: Bytes)
    | Redirect(location: Url, sameOrigin: bool, kind: RedirectKind)

  function FetchedOf(laws: Laws, url: Url, status: nat, location: Option<string>, body: Bytes)
    : Result<Fetched>
  {
    match KindOf(status)
    case Some(kind) =>
      if location.None? then Err(Protocol("redirect without Location"))
      else
        (match laws.join(url, location.value)
         case None => Err(Protocol("invalid redirect Location"))
         case Some(target) => Ok(Redirect(target, SameOrigin(target, url), kind)))
    case None =>
      if 300 <= status <= 399 then Err(HttpStatus(status)) else Ok(Page(url, status, body))
  }

  function AsReply<T>(r: Result<T>): Reply<T> {
    match r case Ok(v) => Done(v) case Err(e) => Refused(e)
  }

  function Send(laws: Laws, w: World, url: Url, cause: Cause): (World, Reply<Fetched>) {
    if url.scheme != "https" then (w, Refused(Protocol("page URL must use HTTPS")))
    else
      var x := laws.net(w.awaits);
      var cookies := LinesAt(w.flow.jar, url, x.sentAt);
      var asked := Sent(w, PageAsked(w.awaits, url, cookies, x.sentAt, cause));
      match x.outcome
      case Gone => (asked, Dropped)
      case Lost => (asked, Refused(Transport))
      case Answered(at, status, location, cookies, body) =>
        (Received(asked, url, cookies, at, status, location, body),
         AsReply(FetchedOf(laws, url, status, location, body)))
  }

  /** The cookies of any response are kept, redirects included. */
  function Received(w: World, url: Url, cookies: Lines, at: nat, status: nat,
                    location: Option<string>, body: Bytes)
    : World
  {
    Log(w.(flow := w.flow.(jar := Replaced(w.flow.jar, url, cookies, at))),
        PageCame(Response(url, cookies, at), status, location, body))
  }

  // The callback.

  /** The callback's code, or why the callback is refused. A parameter given twice is ambiguous;
      nothing is trusted before the state. */
  function CodeIn(query: seq<(string, string)>, state: string): Result<string> {
    var codes, states, errors :=
      ValuesOf(query, "code"), ValuesOf(query, "state"), ValuesOf(query, "error");
    if |codes| > 1 || |states| > 1 || |errors| > 1 then
      Err(Protocol("repeated callback parameter"))
    else if states == [] || state == "" || states[0] != state then
      Err(Protocol("callback state mismatch"))
    else if errors != [] then
      Err(if errors[0] == "access_denied" then AuthenticationRejected
          else Protocol("authorization error on callback"))
    else if codes == [] || codes[0] == "" then Err(Protocol("callback without code"))
    else Ok(codes[0])
  }

  function Callback(laws: Laws, w: World, location: Url, registered: Url)
    : (World, Result<Option<string>>)
  {
    if !SameEndpoint(location, registered) then (w, Ok(None))
    else
      var w := ExpireIfDue(laws, w);
      match Status(w.flow.lifecycle)
      case Err(e) => (w, Err(e))
      case Ok(_) =>
        match CodeIn(location.query, w.flow.state)
        case Err(e) => (w, Err(e))
        case Ok(code) => (w, Ok(Some(code)))
  }

  // The exchange.

  function GrantFields(app: App, code: string, verifier: string): seq<(string, string)> {
    [("grant_type", "authorization_code"), ("client_id", app.clientId), ("code", code),
     ("redirect_uri", app.redirectText), ("code_verifier", verifier)]
  }

  /** The cached keys at a look: the last that another login put there since, or else the same. */
  function Cached(laws: Laws, looks: nat, keys: Json.Value): Json.Value {
    match laws.others(looks)
    case Some(theirs) => theirs
    case None => keys
  }

  function Look(laws: Laws, w: World): World {
    w.(keys := Cached(laws, w.looks, w.keys), looks := w.looks + 1)
  }

  /** Check the ID token with the keys just looked up, and fill in whose session the tokens are. */
  function Verified(laws: Laws, app: App, w: World, tokens: Grants.Tokens, nonce: string)
    : Reply<Grants.Tokens>
    requires tokens.idToken.Some?
  {
    match laws.verify(laws.wall(w.awaits), w.keys, tokens.idToken.value, app.issuer, app.clientId,
                      Some(nonce))
    case Err(e) => Refused(e)
    case Ok(subject) =>
      Done(tokens.(verifiedSubject := subject, verifiedIssuer := Some(app.issuer),
                   verifiedClient := Some(app.clientId), verifiedRefresh := tokens.refresh))
  }

  /** Check the ID token; when its key is not among the cached ones, the issuer's keys are fetched
      once and replace them. The check looks at the cache again. */
  function VerifyTokens(laws: Laws, app: App, w: World, tokens: Grants.Tokens, nonce: string)
    : (World, Reply<Grants.Tokens>)
  {
    if tokens.idToken.None? then (w, Refused(TokenValidation("missing ID token")))
    else
      var seen := Look(laws, w);
      match laws.keyKnown(seen.keys, tokens.idToken.value)
      case Err(e) => (seen, Refused(e))
      case Ok(true) => CheckIdToken(laws, app, seen, tokens, nonce)
      case Ok(false) =>
        var asked := Sent(seen, KeysAsked(w.awaits));
        match laws.net(w.awaits).outcome
        case Gone => (asked, Dropped)
        case Lost => (asked, Refused(Transport))
        case Answered(_, status, _, _, body) =>
          if status != 200 then (asked, Refused(HttpStatus(status)))
          else
            match laws.readKeys(body)
            case Err(e) => (asked, Refused(e))
            case Ok(keys) => CheckIdToken(laws, app, asked.(keys := keys), tokens, nonce)
  }

  function CheckIdToken(laws: Laws, app: App, w: World, tokens: Grants.Tokens, nonce: string)
    : (World, Reply<Grants.Tokens>)
    requires tokens.idToken.Some?
  {
    var seen := Look(laws, w);
    (seen, Verified(laws, app, seen, tokens, nonce))
  }

  /** Ask the token endpoint once. */
  function RequestTokens(laws: Laws, app: App, w: World, code: string): (World, Reply<Grants.Tokens>) {
    if !laws.fits(Requests.PairsOf(GrantFields(app, code, w.flow.verifier))) then
      (w, Refused(Protocol("form request too large")))
    else
      var x := laws.net(w.awaits);
      var asked := Sent(w, CodeAsked(w.awaits, code, w.flow.verifier));
      match x.outcome
      case Gone => (asked, Dropped)
      case Lost => (asked, Refused(Transport))
      case Answered(_, status, _, _, body) =>
        (asked, AsReply(laws.grant(true, status, body)))
  }

  function Redeem(laws: Laws, app: App, w: World, code: string): (World, Reply<Grants.Tokens>) {
    var (asked, r) := RequestTokens(laws, app, w, code);
    if !r.Done? then (asked, r) else VerifyTokens(laws, app, asked, r.value, w.flow.nonce)
  }

  /** Redeem a code and finish; whatever happens, the login is over afterwards. */
  function ExchangeCode(laws: Laws, app: App, w: World, code: string): (World, Reply<Grants.Tokens>) {
    var (after, r) := Exchanged(laws, app, w, code);
    (Fail(laws, after), r)
  }

  /** The exchange before its guard is dropped. */
  function Exchanged(laws: Laws, app: App, w: World, code: string): (World, Reply<Grants.Tokens>) {
    var w := ExpireIfDue(laws, w);
    match Status(w.flow.lifecycle)
    case Err(e) => (w, Refused(e))
    case Ok(_) =>
      var (redeemed, r) := Redeem(laws, app, w, code);
      if !r.Done? then (redeemed, r)
      else
        var due := ExpireIfDue(laws, redeemed);
        match Status(due.flow.lifecycle)
        case Err(e) => (due, Refused(e))
        case Ok(_) => (End(due, Finished), r)
  }

  /** A redirect to the callback ends the login one way or the other; another leaves the flow alone. */
  function CompleteAtCallback(laws: Laws, app: App, w: World, location: Url)
    : (World, Reply<Option<AuthStep>>)
  {
    var w := ExpireIfDue(laws, w);
    match Status(w.flow.lifecycle)
    case Err(e) => (w, Refused(e))
    case Ok(_) =>
      var (called, r) := Callback(laws, w, location, Registered(laws, app));
      match r
      case Err(e) => (Fail(laws, called), Refused(e))
      case Ok(None) => (called, Done(None))
      case Ok(Some(code)) =>
        var (done, tokens) := ExchangeCode(laws, app, called, code);
        match tokens
        case Done(t) => (done, Done(Some(Complete(t))))
        case Refused(e) => (done, Refused(e))
        case Dropped => (done, Dropped)
  }

  // The driver.

  function BodyTokens(laws: Laws, body: Bytes): Option<seq<Token>> {
    if Utf8.WellFormed(body) then Some(laws.html(body)) else None
  }

  function Present(laws: Laws, factors: Factors, w: World, url: Url, body: Bytes)
    : (World, Reply<AuthStep>)
  {
    match Extract(url, BodyTokens(laws, body), laws.join)
    case Err(e) => (w, Refused(e))
    case Ok((kind, form)) =>
      match Rejection(kind)
      case Some(reason) => (Fail(laws, w), Done(Rejected(reason)))
      case None => Prompt(factors, w, kind, form)
  }

  /** Ask a page's first challenge and keep the rest. */
  function Prompt(factors: Factors, w: World, kind: PageKind, form: Form): (World, Reply<AuthStep>) {
    if !factors.supports(kind) then (w, Refused(UnsupportedFactor))
    else
      match factors.challenges(kind, w.flow.loginHint)
      case Err(e) => (w, Refused(e))
      case Ok(challenges) =>
        if challenges == [] then (w, Refused(Protocol("page asks no challenge")))
        else
          var first := challenges[0];
          var pending := Pending(kind, form, ExpectOf(first), challenges[1..], []);
          (Log(w.(flow := w.flow.(pending := Some(pending))), Presented(kind, form, challenges)),
           Done(Ask(first)))
  }

  /** What one turn of the loop over responses leads to: the step's end, or the next response. */
  datatype Turned = Stop(reply: Reply<AuthStep>) | Go(next: Fetched)

  function Stopped(step: (World, Reply<AuthStep>)): (World, Turned) {
    (step.0, Stop(step.1))
  }

  function Turn(laws: Laws, app: App, factors: Factors, w: World, fetched: Fetched,
                posted: bool, followed: nat)
    : (World, Turned)
  {
    var w := ExpireIfDue(laws, w);
    match Status(w.flow.lifecycle)
    case Err(e) => (w, Stop(Refused(e)))
    case Ok(_) =>
      match fetched
      case Page(url, status, body) =>
        if status != 200 then (w, Stop(Refused(HttpStatus(status))))
        else Stopped(Present(laws, factors, w, url, body))
      case Redirect(location, sameOrigin, kind) =>
        if posted && RepeatsRequest(kind) then (w, Stop(Refused(Protocol("unexpected redirect"))))
        else Redirected(laws, app, w, location, sameOrigin, followed)
  }

  /** A redirect completes the login, is followed on the same origin, or is refused. */
  function Redirected(laws: Laws, app: App, w: World, location: Url, sameOrigin: bool, followed: nat)
    : (World, Turned)
  {
    var (called, r) := CompleteAtCallback(laws, app, w, location);
    match r
    case Refused(e) => (called, Stop(Refused(e)))
    case Dropped => (called, Stop(Dropped))
    case Done(Some(step)) => (called, Stop(Done(step)))
    case Done(None) =>
      if !sameOrigin then (called, Stop(Refused(Protocol("unexpected redirect"))))
      else if followed == MAX_REDIRECTS then (called, Stop(Refused(Protocol("too many redirects"))))
      else
        var (sent, next) := Send(laws, called, location, Followed);
        match next
        case Refused(e) => (sent, Stop(Refused(e)))
        case Dropped => (sent, Stop(Dropped))
        case Done(f) => (sent, Go(f))
  }

  /** Turn after turn over the responses, until one stops the step. */
  function Resolve(laws: Laws, app: App, factors: Factors, w: World, fetched: Fetched,
                   posted: bool, followed: nat)
    : (World, Reply<AuthStep>)
    requires followed <= MAX_REDIRECTS
    decreases MAX_REDIRECTS - followed
  {
    var (after, turned) := Turn(laws, app, factors, w, fetched, posted, followed);
    match turned
    case Stop(r) => (after, r)
    case Go(next) =>
      if followed < MAX_REDIRECTS then Resolve(laws, app, factors, after, next, false, followed + 1)
      else (after, Refused(Protocol("too many redirects")))
  }

  /** Send a request for a page and resolve what comes back. */
  function Visit(laws: Laws, app: App, factors: Factors, w: World, url: Url, cause: Cause)
    : (World, Reply<AuthStep>)
  {
    var (sent, next) := Send(laws, w, url, cause);
    match next
    case Refused(e) => (sent, Refused(e))
    case Dropped => (sent, Dropped)
    case Done(f) => Resolve(laws, app, factors, sent, f, cause.Posted?, 0)
  }

  function LoginClient(app: App): string {
    app.issuer + " " + app.clientId + " " + app.redirectText
  }

  function FirstPage(laws: Laws, app: App, factors: Factors, start: Start, w: World)
    : (World, Reply<AuthStep>)
  {
    var w := ExpireIfDue(laws, w);
    match Status(w.flow.lifecycle)
    case Err(e) => (w, Refused(e))
    case Ok(_) =>
      var request := Endpoints.Request(app.clientId, app.redirectText, start.loginHint, start.scopes,
                                       w.flow.verifier, w.flow.state, w.flow.nonce);
      match Endpoints.AuthorizationUrl(app.authorization, request, laws.digest)
      case Err(e) => (w, Refused(e))
      case Ok(url) =>
        var named := w.(flow := w.flow.(client := LoginClient(app), loginHint := start.loginHint));
        Visit(laws, app, factors, named, url, Began)
  }

  function PostPage(laws: Laws, app: App, factors: Factors, w: World, page: Pending)
    : (World, Reply<AuthStep>)
  {
    if !factors.supports(page.kind) then (w, Refused(UnsupportedFactor))
    else
      match factors.fields(page.kind, page.answers)
      case Err(e) => (w, Refused(e))
      case Ok(answers) =>
        match Submitted(page.form, answers)
        case Err(e) => (w, Refused(e))
        case Ok(fields) =>
          if !laws.fits(Requests.PairsOf(fields)) then
            (w, Refused(Protocol("form request too large")))
          else Visit(laws, app, factors, w, page.form.action, Posted(page, fields))
  }

  function AnswerPage(laws: Laws, app: App, factors: Factors, w: World, answer: Answer)
    : (World, Reply<AuthStep>)
  {
    var w := ExpireIfDue(laws, w);
    match Status(w.flow.lifecycle)
    case Err(e) => (w, Refused(e))
    case Ok(_) =>
      if w.flow.pending.None? then (w, Refused(Protocol("no challenge is waiting for an answer")))
      else
        var page := w.flow.pending.value;
        var taken := w.(flow := w.flow.(pending := None));
        if w.flow.client != LoginClient(app) then
          (taken, Refused(Protocol("login flow belongs to another client")))
        else
          match Check(page.expected, answer)
          case Err(e) => (taken, Refused(e))
          case Ok(_) => NextChallenge(laws, app, factors, taken, page.(answers := page.answers + [answer]))
  }

  /** After a good answer: on to the following challenge, or, at the last, to the post. */
  function NextChallenge(laws: Laws, app: App, factors: Factors, w: World, page: Pending)
    : (World, Reply<AuthStep>)
  {
    if page.queue == [] then PostPage(laws, app, factors, w, page)
    else
      var next := page.queue[0];
      var waiting := page.(expected := ExpectOf(next), queue := page.queue[1..]);
      (w.(flow := w.flow.(pending := Some(waiting))), Done(Ask(next)))
  }

  /** Every way out of a step but success ends the login. */
  function Guarded(laws: Laws, step: (World, Reply<AuthStep>)): (World, Reply<AuthStep>) {
    var (w, r) := step;
    (Log(if r.Done? then w else Fail(laws, w), Returned(r)), r)
  }

  // Whole logins.

  function Called(laws: Laws, w: World, call: Call): World {
    Performed(laws, Log(w, Entered(call)), call)
  }

  function Performed(laws: Laws, w: World, call: Call): World {
    match call
    case Begin(app, factors, start) => Guarded(laws, FirstPage(laws, app, factors, start, w)).0
    case Advance(app, factors, answer) => Guarded(laws, AnswerPage(laws, app, factors, w, answer)).0
    case CancelLogin => Cancel(laws, w)
    case AskIfActive => ExpireIfDue(laws, w)
    case Redeeming(app, code) => ExchangeCode(laws, app, w, code).0
    case AbandonRedeeming => Fail(laws, w)
  }

  function NewFlow(verifier: string, state: string, nonce: string, deadline: nat): Flow {
    Flow(map[], deadline, Active, verifier, state, nonce, None, "", None)
  }

  /** A login's start, before its first page: nothing has been asked. */
  function NewWorld(laws: Laws, limit: nat, verifier: string, state: string, nonce: string,
                    keys: Json.Value): World
  {
    World(NewFlow(verifier, state, nonce, laws.clock(0) + limit), 1, 0, 0, keys, [])
  }

  function Run(laws: Laws, w: World, calls: seq<Call>): World
    decreases |calls|
  {
    if calls == [] then w else Run(laws, Called(laws, w, calls[0]), calls[1..])
  }
}
