/** What every step of a login keeps, whatever the server, the clock and the caller do. */
module LoginProofs {
  import opened Common
  import opened Urls
  import Pages
  import opened Forms
  import opened Challenges
  import opened CookieJar
  import opened Login
  import Endpoints
  import Grants
  import Json = JsonGrammar
  import Requests

  /** What a new flow is made with, and the keys its client has cached. */
  datatype Opening = Opening(
    limit: nat,
    verifier: string,
    state: string,
    nonce: string,
    keys: Json.Value)

  /** What a login fixes when it begins: its surroundings, whose it is, and its flow's making. */
  datatype Birth = Birth(laws: Laws, owner: App, opening: Opening) {
    function Home(): Origin {
      OriginOf(owner.authorization)
    }

    function Callback(): Url {
      Registered(laws, owner)
    }
  }

  // Whose login it is.

  predicate SameClient(a: App, b: App) {
    a.issuer == b.issuer && a.clientId == b.clientId && a.redirectText == b.redirectText
  }

  lemma SpaceSplits(a: string, b: string, c: string, d: string)
    requires ' ' !in a && ' ' !in c && a + " " + b == c + " " + d
    ensures a == c && b == d
  {
    var s := a + " " + b;
    assert s[|a|] == ' ' && s[|c|] == ' ';
    assert forall k :: 0 <= k < |a| ==> s[k] == a[k];
    assert forall k :: 0 <= k < |c| ==> s[k] == c[k];
    assert |a| == |c|;
    assert a == s[..|a|] && c == s[..|a|];
    assert b == s[|a| + 1..] && d == s[|a| + 1..];
  }

  lemma LastSpaceSplits(a: string, b: string, c: string, d: string)
    requires ' ' !in b && ' ' !in d && a + " " + b == c + " " + d
    ensures a == c && b == d
  {
    var s := a + " " + b;
    assert s[|a|] == ' ' && s[|c|] == ' ';
    assert forall k :: |a| < k < |s| ==> s[k] == b[k - |a| - 1];
    assert forall k :: |c| < k < |s| ==> s[k] == d[k - |c| - 1];
    assert |a| == |c|;
    assert a == s[..|a|] && c == s[..|a|];
    assert b == s[|a| + 1..] && d == s[|a| + 1..];
  }

  /** The string a login remembers its client by tells clients apart, since neither an issuer nor a
      callback holds a space. */
  lemma ClientsToldApart(a: App, b: App)
    ensures LoginClient(a) == LoginClient(b) <==> SameClient(a, b)
  {
    if LoginClient(a) == LoginClient(b) {
      LastSpaceSplits(a.issuer + " " + a.clientId, a.redirectText,
                      b.issuer + " " + b.clientId, b.redirectText);
      SpaceSplits(a.issuer, a.clientId, b.issuer, b.clientId);
    }
  }

  // What a completed login has to show.

  /** The tokens are those of the reply to a request, with only who they were verified for filled in. */
  predicate GrantAt(laws: Laws, n: nat, t: Grants.Tokens) {
    var outcome := laws.net(n).outcome;
    && outcome.Answered? && laws.grant(true, outcome.status, outcome.body).Ok?
    && t == laws.grant(true, outcome.status, outcome.body).value.(
              verifiedSubject := t.verifiedSubject, verifiedIssuer := t.verifiedIssuer,
              verifiedClient := t.verifiedClient, verifiedRefresh := t.verifiedRefresh)
  }

  /** The keys in a success reply to a request. */
  function FetchedAt(laws: Laws, n: nat): Option<Json.Value> {
    var outcome := laws.net(n).outcome;
    if outcome.Answered? && outcome.status == 200 && laws.readKeys(outcome.body).Ok? then
      Some(laws.readKeys(outcome.body).value)
    else None
  }

  /** The keys a token check uses that looks at the cache twice: those it saw first or, when it asked
      for keys in request `n`, that reply's, unless another login has replaced them since. */
  function SecondLook(laws: Laws, looks: nat, keys: Json.Value, n: nat, fetched: bool): Json.Value {
    var reply := FetchedAt(laws, n);
    Cached(laws, looks + 1, if fetched && reply.Some? then reply.value else Cached(laws, looks, keys))
  }

  /** The cached keys when a login first looks: those it opened with, or another login's. */
  function FirstKeys(b: Birth): Json.Value {
    Cached(b.laws, 0, b.opening.keys)
  }

  /** The keys a login that asked for its code's tokens in request `n` checks them with. */
  function CheckKeys(b: Birth, n: nat, fetched: bool): Json.Value {
    SecondLook(b.laws, 0, b.opening.keys, n + 1, fetched)
  }

  /** The time of that check, after as many requests. */
  function CheckTime(b: Birth, n: nat, fetched: bool): Option<nat> {
    b.laws.wall(if fetched then n + 2 else n + 1)
  }

  /** The tokens are the reply to request `n`; keys were fetched exactly when the token's was not among
      those first seen; the ID token passed the check for the owner's issuer and client and this
      login's nonce, and names the recorded subject. */
  predicate Earned(b: Birth, n: nat, fetched: bool, t: Grants.Tokens) {
    && GrantAt(b.laws, n, t) && t.idToken.Some? && t.verifiedRefresh == t.refresh
    && t.verifiedIssuer == Some(b.owner.issuer) && t.verifiedClient == Some(b.owner.clientId)
    && b.laws.keyKnown(FirstKeys(b), t.idToken.value) == Ok(!fetched)
    && (fetched ==> FetchedAt(b.laws, n + 1).Some?)
    && b.laws.verify(CheckTime(b, n, fetched), CheckKeys(b, n, fetched), t.idToken.value,
                     b.owner.issuer, b.owner.clientId, Some(b.opening.nonce))
         == Ok(t.verifiedSubject)
  }

  /** A login completes right after it asked for its code's tokens, or for keys after that. */
  predicate Completes(b: Birth, last: Option<Event>, t: Grants.Tokens) {
    && last.Some?
    && if last.value.KeysAsked? then last.value.n > 0 && Earned(b, last.value.n - 1, true, t)
       else last.value.CodeAsked? && Earned(b, last.value.n, false, t)
  }

  // The onlooker.

  predicate IsPost(e: Event) {
    e.PageAsked? && e.cause.Posted?
  }

  predicate IsRequest(e: Event) {
    e.PageAsked? || e.CodeAsked? || e.KeysAsked?
  }

  predicate IsComplete(e: Event) {
    e.Returned? && e.reply.Done? && e.reply.value.Complete?
  }

  predicate IsChallenge(e: Event) {
    e.Presented? || (e.Returned? && e.reply.Done? && e.reply.value.Ask?)
  }

  /** The statuses that redirect, and those of them that ask for the same request again. */
  predicate Redirects(status: nat) {
    status == 301 || status == 302 || status == 303 || Repeats(status)
  }

  predicate Repeats(status: nat) {
    status == 307 || status == 308
  }

  predicate AsksToRepeat(e: Event) {
    e.PageCame? && Repeats(e.status)
  }

  predicate PrefixPasses(challenges: seq<Challenge>, answers: seq<Answer>) {
    |answers| <= |challenges| &&
    forall i :: 0 <= i < |answers| ==> Passes(challenges[i], answers[i])
  }

  /** A waiting page splits its challenge list: an answered prefix whose answers passed, the
      awaited challenge, and the queue. */
  predicate Splits(page: Pending, challenges: seq<Challenge>) {
    && |challenges| == |page.answers| + 1 + |page.queue|
    && page.queue == challenges[|page.answers| + 1..]
    && page.expected == ExpectOf(challenges[|page.answers|])
    && PrefixPasses(challenges, page.answers)
  }

  predicate Shows(e: Event, page: Pending) {
    e.Presented? && e.kind == page.kind && e.form == page.form && Splits(page, e.challenges)
  }

  /** All of a presented page's challenges were answered, in order. */
  predicate Settles(e: Event, page: Pending) {
    && e.Presented? && e.kind == page.kind && e.form == page.form
    && |page.answers| == |e.challenges| && PrefixPasses(e.challenges, page.answers)
  }

  /** The fields a factor gives for a page's answers are acceptable, and the form is filled in with
      them. */
  predicate Fills(factors: Factors, page: Pending, fields: seq<(string, string)>) {
    var answers := factors.fields(page.kind, page.answers);
    answers.Ok? && Acceptable(page.form, answers.value) && fields == Filled(page.form, answers.value)
  }

  /** The response is the server's reply to the page request. */
  predicate Replies(laws: Laws, asked: Event, came: Event) {
    && asked.PageAsked? && came.PageCame? && came.response.url == asked.url
    && laws.net(asked.n).outcome ==
         Answered(came.response.now, came.status, came.location, came.response.lines, came.body)
  }

  /** Where a response redirects to. */
  function Target(laws: Laws, e: Event): Option<Url> {
    if e.PageCame? && Redirects(e.status) && e.location.Some? then
      laws.join(e.response.url, e.location.value)
    else None
  }

  /** The response is a page of this kind, with this form. */
  predicate Shown(laws: Laws, e: Event, kind: Pages.PageKind, form: Form) {
    && e.PageCame? && e.status == 200
    && Extract(e.response.url, BodyTokens(laws, e.body), laws.join) == Ok((kind, form))
  }

  /** The response redirects to the owner's callback, with this login's state and this code. */
  predicate CodeCame(b: Birth, e: Event, code: string) {
    var target := Target(b.laws, e);
    && target.Some? && SameEndpoint(target.value, b.Callback())
    && CodeIn(target.value.query, b.opening.state) == Ok(code)
  }

  /** What an onlooker remembers of a login: whether it may ask for anything more, whether it has
      completed, the last event, the cookies its responses left, the page last presented, the answers
      given since then, the user last named, how many requests were made, the last call, and whether
      every event so far was in order. */
  datatype Watch = Watch(
    over: bool,
    completed: bool,
    last: Option<Event>,
    jar: Stored,
    page: Option<Event>,
    given: seq<Answer>,
    hint: Option<string>,
    awaits: nat,
    call: Option<Call>,
    ok: bool)

  /** The factors of a step. */
  function StepFactors(call: Option<Call>): Option<Factors> {
    if call.Some? && (call.value.Begin? || call.value.Advance?) then Some(call.value.factors) else None
  }

  predicate Posting(m: Watch) {
    m.last.Some? && IsPost(m.last.value)
  }

  /** The URL asks to log in with the flow's own secrets, for the call's client and user. */
  predicate Opens(b: Birth, call: Call, url: Url) {
    && call.Begin?
    && Endpoints.AuthorizationUrl(
         call.app.authorization,
         Endpoints.Request(call.app.clientId, call.app.redirectText, call.start.loginHint,
                           call.start.scopes, b.opening.verifier, b.opening.state, b.opening.nonce),
         b.laws.digest) == Ok(url)
  }

  predicate CauseOk(b: Birth, m: Watch, url: Url, cause: Cause) {
    match cause
    case Began => m.call.Some? && Opens(b, m.call.value, url)
    case Followed =>
      && m.last.Some? && Target(b.laws, m.last.value) == Some(url)
      && !SameEndpoint(url, b.Callback())
    case Posted(page, fields) =>
      && url == page.form.action && b.laws.fits(Requests.PairsOf(fields))
      && StepFactors(m.call).Some? && Fills(StepFactors(m.call).value, page, fields)
      && m.page.Some? && Settles(m.page.value, page) && page.answers == m.given
  }

  /** A presented form posts over HTTPS to the login's origin, only fields its kind of page may post,
      and of itself only devices it offers. */
  predicate FormOk(b: Birth, kind: Pages.PageKind, form: Form) {
    && form.action.scheme == "https" && OriginOf(form.action) == b.Home()
    && PostsOnly(form, kind) && SelfConsistent(form)
  }

  /** A page's challenges are those of the step's factors, for the user last named. */
  predicate Asks(m: Watch, kind: Pages.PageKind, challenges: seq<Challenge>) {
    && challenges != [] && StepFactors(m.call).Some?
    && StepFactors(m.call).value.challenges(kind, m.hint) == Ok(challenges)
  }

  /** The challenge is the first of the page's that has not been answered. */
  predicate IsNext(m: Watch, challenge: Challenge) {
    && m.page.Some? && m.page.value.Presented? && |m.given| < |m.page.value.challenges|
    && challenge == m.page.value.challenges[|m.given|]
  }

  /** The response is a page that rejects the login, for this reason. */
  predicate Rejects(laws: Laws, e: Event, reason: string) {
    && e.PageCame? && e.status == 200
    && var page := Extract(e.response.url, BodyTokens(laws, e.body), laws.join);
       page.Ok? && Pages.Rejection(page.value.0) == Some(reason)
  }

  /** What a step may report: the next challenge, a rejection that just came, or tokens it earned. */
  predicate ReplyOk(b: Birth, m: Watch, step: AuthStep) {
    match step
    case Ask(challenge) => IsNext(m, challenge)
    case Rejected(reason) => m.last.Some? && Rejects(b.laws, m.last.value, reason)
    case Complete(tokens) => Completes(b, m.last, tokens)
  }

  /** A code is what a caller redeems, or else came from a redirect to the callback. */
  predicate CodeOk(b: Birth, m: Watch, code: string) {
    if m.call.Some? && m.call.value.Redeeming? then code == m.call.value.code
    else m.last.Some? && CodeCame(b, m.last.value, code)
  }

  /** Whether an event is in order after what came before it. */
  predicate EventOk(b: Birth, m: Watch, e: Event) {
    match e
    case Entered(_) => true
    case PageAsked(n, url, cookies, at, cause) =>
      && !m.over && n == m.awaits && at == b.laws.net(n).sentAt
      && url.scheme == "https" && OriginOf(url) == b.Home()
      && cookies == LinesAt(m.jar, url, at)
      && CauseOk(b, m, url, cause)
    case PageCame(_, _, _, _) => m.last.Some? && Replies(b.laws, m.last.value, e)
    case Presented(kind, form, challenges) =>
      && !m.over && m.last.Some? && Shown(b.laws, m.last.value, kind, form)
      && FormOk(b, kind, form) && Asks(m, kind, challenges)
    case CodeAsked(n, code, verifier) =>
      && !m.over && n == m.awaits && verifier == b.opening.verifier
      && CodeOk(b, m, code)
    case KeysAsked(n) =>
      && n == m.awaits && m.last.Some? && m.last.value.CodeAsked? && n == m.last.value.n + 1
    case Returned(reply) =>
      reply.Done? ==>
        && !m.completed
        && (reply.value.Ask? ==> !m.over)
        && ReplyOk(b, m, reply.value)
  }

  function Seen(b: Birth, m: Watch, e: Event): Watch {
    Watch(
      m.over || e.CodeAsked? || (Posting(m) && AsksToRepeat(e)),
      m.completed || IsComplete(e),
      Some(e),
      if e.PageCame? then Replaced(m.jar, e.response.url, e.response.lines, e.response.now) else m.jar,
      if e.Presented? then Some(e) else m.page,
      if e.Presented? then []
      else if e.Entered? && e.call.Advance? then m.given + [e.call.answer]
      else m.given,
      if e.Entered? && e.call.Begin? then e.call.start.loginHint else m.hint,
      m.awaits + if IsRequest(e) then 1 else 0,
      if e.Entered? then Some(e.call) else m.call,
      m.ok && EventOk(b, m, e))
  }

  function Watched(b: Birth, log: seq<Event>): Watch {
    if log == [] then Watch(false, false, None, map[], None, [], None, 0, None, true)
    else Seen(b, Watched(b, log[..|log| - 1]), log[|log| - 1])
  }

  /** Nothing of an ended login is left. */
  predicate Wiped(flow: Flow) {
    flow.jar == map[] && flow.pending.None? && flow.verifier == "" && flow.state == "" && flow.nonce == ""
  }

  predicate PendingOk(b: Birth, m: Watch, page: Pending) {
    && m.page.Some? && Shows(m.page.value, page)
    && page.form.action.scheme == "https" && OriginOf(page.form.action) == b.Home()
  }

  predicate FlowOk(b: Birth, m: Watch, flow: Flow) {
    && m.ok
    && (flow.lifecycle.Active? ==>
         && flow.jar == m.jar && !m.completed
         && flow.verifier == b.opening.verifier && flow.state == b.opening.state
         && flow.nonce == b.opening.nonce)
    && (flow.client == LoginClient(b.owner) || flow.client == "")
    && (!flow.lifecycle.Active? ==> Wiped(flow))
    && (flow.pending.Some? ==> PendingOk(b, m, flow.pending.value))
  }

  /** What holds at every moment, even inside a step. */
  predicate Sound(b: Birth, w: World) {
    var m := Watched(b, w.log);
    && FlowOk(b, m, w.flow) && w.awaits == m.awaits
    && (!m.over ==> w.looks == 0 && w.keys == b.opening.keys)
  }

  /** A login that may ask nothing more has ended. */
  predicate Settled(b: Birth, w: World) {
    Sound(b, w) && (w.flow.lifecycle.Active? ==> !Watched(b, w.log).over)
  }

  /** What holds between calls: the waiting page has the answers given for it, and the user is the one
      last named. */
  predicate Rested(b: Birth, w: World) {
    && Settled(b, w)
    && (w.flow.lifecycle.Active? ==> w.flow.loginHint == Watched(b, w.log).hint)
    && (w.flow.pending.Some? ==> w.flow.pending.value.answers == Watched(b, w.log).given)
  }

  /** Inside a step: its factors are the call's, and the user is the one last named. */
  ghost predicate InStep(b: Birth, w: World, factors: Factors) {
    var m := Watched(b, w.log);
    StepFactors(m.call) == Some(factors) && w.flow.loginHint == m.hint
  }

  lemma Appended(b: Birth, log: seq<Event>, e: Event)
    ensures Watched(b, log + [e]) == Seen(b, Watched(b, log), e)
  {
    assert (log + [e])[..|log|] == log;
  }

  lemma EndKeeps(b: Birth, w: World, to: Lifecycle)
    requires Sound(b, w) && !to.Active?
    ensures Rested(b, End(w, to)) && !End(w, to).flow.lifecycle.Active?
  {
  }

  lemma ExpireKeeps(b: Birth, w: World)
    requires Sound(b, w)
    ensures var after := ExpireIfDue(b.laws, w);
            && Sound(b, after) && after.log == w.log
            && (Settled(b, w) ==> Settled(b, after))
            && (after.flow.lifecycle.Active? ==> w.flow.lifecycle.Active? && after.flow == w.flow)
            && (!after.flow.lifecycle.Active? ==> Rested(b, after))
  {
  }

  lemma FailKeeps(b: Birth, w: World)
    requires Sound(b, w)
    ensures Rested(b, Fail(b.laws, w)) && !Fail(b.laws, w).flow.lifecycle.Active?
    ensures Fail(b.laws, w).log == w.log
  {
    ExpireKeeps(b, w);
    EndKeeps(b, ExpireIfDue(b.laws, w), Lifecycle.Failed);
  }

  /** The request a page is asked for with. */
  function PageRequest(laws: Laws, w: World, url: Url, cause: Cause): Event {
    var at := laws.net(w.awaits).sentAt;
    PageAsked(w.awaits, url, LinesAt(w.flow.jar, url, at), at, cause)
  }

  /** What a request or a response leaves of a step. */
  ghost predicate StillIn(b: Birth, w: World, after: World) {
    var m, n := Watched(b, w.log), Watched(b, after.log);
    n.call == m.call && n.hint == m.hint && after.flow.loginHint == w.flow.loginHint
  }

  /** A page request is sound when its cause is. */
  lemma AskKeeps(b: Birth, w: World, url: Url, cause: Cause)
    requires Settled(b, w) && w.flow.lifecycle.Active?
    requires url.scheme == "https" && OriginOf(url) == b.Home()
    requires CauseOk(b, Watched(b, w.log), url, cause)
    ensures var e := PageRequest(b.laws, w, url, cause);
            var after := Sent(w, e);
            && Settled(b, after) && after.flow == w.flow && StillIn(b, w, after)
            && Watched(b, after.log).last == Some(e)
  {
    hide Watched, LinesAt, Shows, CauseOk, Completes, Replaced;
    Appended(b, w.log, PageRequest(b.laws, w, url, cause));
  }

  lemma ReceiveKeeps(b: Birth, w: World, url: Url, cookies: Lines, at: nat, status: nat,
                     location: Option<string>, body: Utf8.Bytes)
    requires Settled(b, w) && w.flow.lifecycle.Active?
    requires var last := Watched(b, w.log).last;
             last.Some? && Replies(b.laws, last.value,
                                   PageCame(Response(url, cookies, at), status, location, body))
    ensures var after := Received(w, url, cookies, at, status, location, body);
            && Sound(b, after) && StillIn(b, w, after)
            && Watched(b, after.log).last ==
                 Some(PageCame(Response(url, cookies, at), status, location, body))
            && ((Posting(Watched(b, w.log)) && Repeats(status)) || Settled(b, after))
  {
    hide Watched, Completes, Shows, Replies, LinesAt, CauseOk;
    var e := PageCame(Response(url, cookies, at), status, location, body);
    Appended(b, w.log, e);
  }

  predicate AsksForRepeat(cause: Cause, r: Reply<Fetched>) {
    cause.Posted? && r.Done? && r.value.Redirect? && RepeatsRequest(r.value.kind)
  }

  /** A response that arrived is the last event: a page of the login's origin, or a redirect. */
  predicate SafeTarget(b: Birth, m: Watch, r: Reply<Fetched>) {
    r.Done? ==>
      && m.last.Some? && m.last.value.PageCame?
      && match r.value
         case Page(url, status, body) =>
           && url.scheme == "https" && OriginOf(url) == b.Home()
           && m.last.value.response.url == url && m.last.value.status == status
           && m.last.value.body == body
         case Redirect(location, sameOrigin, _) =>
           && Target(b.laws, m.last.value) == Some(location)
           && (sameOrigin ==> OriginOf(location) == b.Home())
  }

  lemma SendKeeps(b: Birth, w: World, url: Url, cause: Cause)
    requires Settled(b, w) && w.flow.lifecycle.Active?
    requires OriginOf(url) == b.Home() && CauseOk(b, Watched(b, w.log), url, cause)
    ensures var (after, r) := Send(b.laws, w, url, cause);
            && Sound(b, after) && StillIn(b, w, after)
            && after.flow.lifecycle.Active?
            && (r.Done? && !AsksForRepeat(cause, r) ==> Settled(b, after))
            && SafeTarget(b, Watched(b, after.log), r)
  {
    hide Watched, LinesAt, Splits, CauseOk, Replaced, EventOk;
    if url.scheme == "https" {
      AskKeeps(b, w, url, cause);
      var asked := Sent(w, PageRequest(b.laws, w, url, cause));
      var o := b.laws.net(w.awaits).outcome;
      if o.Answered? {
        ReceiveKeeps(b, asked, url, o.cookies, o.at, o.status, o.location, o.body);
      }
    }
  }

  /** A code request is the last thing an active login asks. */
  lemma RequestKeeps(app: App, b: Birth, w: World, code: string)
    requires Settled(b, w) && w.flow.lifecycle.Active? && CodeOk(b, Watched(b, w.log), code)
    ensures var (after, r) := RequestTokens(b.laws, app, w, code);
            && Sound(b, after) && after.flow == w.flow
            && Watched(b, after.log).completed == Watched(b, w.log).completed
            && (r.Done? ==> CodeSent(b, after, w.awaits) && GrantAt(b.laws, w.awaits, r.value))
  {
    hide Watched, GrantFields, CodeOk, Completes, Shows, LinesAt, CauseOk, Replaced;
    Appended(b, w.log, CodeAsked(w.awaits, code, w.flow.verifier));
  }

  /** A code request has just been sent, and the cache has not been looked at. */
  predicate CodeSent(b: Birth, w: World, n: nat) {
    var m := Watched(b, w.log);
    && m.over && m.last.Some? && m.last.value.CodeAsked? && m.last.value.n == n
    && w.awaits == n + 1 && w.looks == 0 && w.keys == b.opening.keys
  }

  lemma KeysKeep(b: Birth, w: World, n: nat)
    requires Sound(b, w) && CodeSent(b, w, n)
    ensures var m := Watched(b, w.log + [KeysAsked(n + 1)]);
            && FlowOk(b, m, w.flow) && m.over && m.awaits == n + 2
            && m.completed == Watched(b, w.log).completed && m.last == Some(KeysAsked(n + 1))
  {
    hide Watched, Replaced, Splits, CauseOk;
    Appended(b, w.log, KeysAsked(n + 1));
  }

  lemma VerifyKeeps(app: App, b: Birth, w: World, n: nat, tokens: Grants.Tokens)
    requires Sound(b, w) && CodeSent(b, w, n) && GrantAt(b.laws, n, tokens)
    ensures var (after, r) := VerifyTokens(b.laws, app, w, tokens, b.opening.nonce);
            && Sound(b, after) && after.flow == w.flow
            && Watched(b, after.log).completed == Watched(b, w.log).completed
            && (r.Done? && SameClient(app, b.owner) ==>
                 Completes(b, Watched(b, after.log).last, r.value))
  {
    hide Watched, FlowOk, Earned, VerifyTokens;
    KeysKeep(b, w, n);
    VerifyLogs(b.laws, app, w, tokens, b.opening.nonce);
    var (after, r) := VerifyTokens(b.laws, app, w, tokens, b.opening.nonce);
    if r.Done? && SameClient(app, b.owner) {
      VerifyEarns(app, b, w, n, tokens);
    }
  }

  lemma VerifyLogs(laws: Laws, app: App, w: World, tokens: Grants.Tokens, nonce: string)
    ensures var after := VerifyTokens(laws, app, w, tokens, nonce).0;
            && after.flow == w.flow && after.ticks == w.ticks
            && ((after.log == w.log && after.awaits == w.awaits)
                || (after.log == w.log + [KeysAsked(w.awaits)] && after.awaits == w.awaits + 1))
  {
    hide Verified;
  }

  lemma VerifyEarns(app: App, b: Birth, w: World, n: nat, tokens: Grants.Tokens)
    requires CodeSent(b, w, n) && GrantAt(b.laws, n, tokens) && SameClient(app, b.owner)
    requires VerifyTokens(b.laws, app, w, tokens, b.opening.nonce).1.Done?
    ensures var (after, r) := VerifyTokens(b.laws, app, w, tokens, b.opening.nonce);
            && (after.log == w.log ==> Earned(b, n, false, r.value))
            && (after.log == w.log + [KeysAsked(n + 1)] ==> Earned(b, n, true, r.value))
  {
    hide Watched;
  }

  lemma ExchangedKeeps(app: App, b: Birth, w: World, code: string)
    requires Settled(b, w) && CodeOk(b, Watched(b, w.log), code)
    ensures var (after, r) := Exchanged(b.laws, app, w, code);
            && Sound(b, after) && Watched(b, after.log).completed == Watched(b, w.log).completed
            && (r.Done? && SameClient(app, b.owner) ==>
                 Completes(b, Watched(b, after.log).last, r.value))
  {
    hide RequestTokens, VerifyTokens, Watched, CodeOk, Completes;
    ExpireKeeps(b, w);
    var due := ExpireIfDue(b.laws, w);
    if due.flow.lifecycle.Active? {
      RequestKeeps(app, b, due, code);
      var (asked, r) := RequestTokens(b.laws, app, due, code);
      if r.Done? {
        VerifyKeeps(app, b, asked, due.awaits, r.value);
      }
      var redeemed := Redeem(b.laws, app, due, code).0;
      ExpireKeeps(b, redeemed);
      EndKeeps(b, ExpireIfDue(b.laws, redeemed), Lifecycle.Finished);
    }
  }

  lemma ExchangeKeeps(app: App, b: Birth, w: World, code: string)
    requires Settled(b, w) && CodeOk(b, Watched(b, w.log), code)
    ensures var (after, r) := ExchangeCode(b.laws, app, w, code);
            && Rested(b, after) && !after.flow.lifecycle.Active?
            && Watched(b, after.log).completed == Watched(b, w.log).completed
            && (r.Done? && SameClient(app, b.owner) ==>
                 Completes(b, Watched(b, after.log).last, r.value))
  {
    hide Exchanged, CodeOk, Completes;
    ExchangedKeeps(app, b, w, code);
    FailKeeps(b, Exchanged(b.laws, app, w, code).0);
  }

  lemma CallbackKeeps(b: Birth, w: World, location: Url)
    requires Settled(b, w)
    ensures var (after, r) := Callback(b.laws, w, location, b.Callback());
            && Settled(b, after) && after.log == w.log
            && (r == Ok(None) ==> after == w && !SameEndpoint(location, b.Callback()))
            && (r.Ok? && r.value.Some? ==>
                 && SameEndpoint(location, b.Callback())
                 && CodeIn(location.query, b.opening.state) == Ok(r.value.value))
  {
    hide Watched, SameEndpoint, CodeIn;
    ExpireKeeps(b, w);
  }

  lemma CompleteKeeps(app: App, b: Birth, w: World, location: Url)
    requires SameClient(app, b.owner) && Settled(b, w)
    requires var m := Watched(b, w.log);
             && StepFactors(m.call).Some?
             && m.last.Some? && Target(b.laws, m.last.value) == Some(location)
    ensures var (after, r) := CompleteAtCallback(b.laws, app, w, location);
            && Settled(b, after)
            && (r == Done(None) ==>
                 && after.flow.lifecycle.Active? && after.flow == w.flow && after.log == w.log
                 && !SameEndpoint(location, b.Callback()))
            && (r.Done? && r.value.Some? ==> r.value.value.Complete?)
            && (r.Done? ==> !Watched(b, after.log).completed)
            && (r.Done? && r.value.Some? ==>
                 Completes(b, Watched(b, after.log).last, r.value.value.tokens))
            && (r != Done(None) ==> Rested(b, after) && !after.flow.lifecycle.Active?)
  {
    hide Callback, ExchangeCode, SameEndpoint, CodeIn, Watched, Completes;
    ExpireKeeps(b, w);
    var due := ExpireIfDue(b.laws, w);
    CallbackKeeps(b, due, location);
    var (called, r) := Callback(b.laws, due, location, b.Callback());
    FailKeeps(b, called);
    if r.Ok? && r.value.Some? {
      ExchangeKeeps(app, b, called, r.value.value);
    }
  }

  /** A step's result leaves the login sound, and at rest when the step succeeds; a challenge
      leaves it active. */
  predicate StepOk(b: Birth, step: (World, Reply<AuthStep>)) {
    && Sound(b, step.0)
    && (step.1.Done? ==> Rested(b, step.0))
    && (step.1.Done? && step.1.value.Ask? ==> step.0.flow.lifecycle.Active?)
    && (step.1.Done? && step.1.value.Complete? ==> !step.0.flow.lifecycle.Active?)
    && (step.1.Done? ==>
         !Watched(b, step.0.log).completed && ReplyOk(b, Watched(b, step.0.log), step.1.value))
  }

  lemma PromptKeeps(factors: Factors, b: Birth, w: World, kind: Pages.PageKind, form: Form)
    requires Settled(b, w) && w.flow.lifecycle.Active? && InStep(b, w, factors)
    requires FormOk(b, kind, form)
    requires var last := Watched(b, w.log).last; last.Some? && Shown(b.laws, last.value, kind, form)
    ensures StepOk(b, Prompt(factors, w, kind, form))
  {
    hide Watched, Shown, Replaced, CauseOk, Completes, Replies, LinesAt, ExpectOf;
    var challenges := factors.challenges(kind, w.flow.loginHint);
    if challenges.Ok? && challenges.value != [] {
      var e := Presented(kind, form, challenges.value);
      Appended(b, w.log, e);
      var page := Pending(kind, form, ExpectOf(challenges.value[0]), challenges.value[1..], []);
      assert Shows(e, page);
    }
  }

  lemma PresentKeeps(factors: Factors, b: Birth, w: World, url: Url, body: Utf8.Bytes)
    requires Settled(b, w) && w.flow.lifecycle.Active? && InStep(b, w, factors)
    requires SafeTarget(b, Watched(b, w.log), Done(Page(url, 200, body)))
    ensures StepOk(b, Present(b.laws, factors, w, url, body))
  {
    hide Extract, Prompt, Watched, BodyTokens, CodeIn, FlowOk;
    var tokens := BodyTokens(b.laws, body);
    if Extract(url, tokens, b.laws.join).Ok? {
      ExtractedForm(url, tokens, b.laws.join);
      DefaultsAreOffered(url, tokens, b.laws.join);
      var (kind, form) := Extract(url, tokens, b.laws.join).value;
      FailKeeps(b, w);
      CompletedOnce(b, w);
      PromptKeeps(factors, b, w, kind, form);
    }
  }

  lemma CompletedOnce(b: Birth, w: World)
    requires Sound(b, w) && w.flow.lifecycle.Active?
    ensures !Watched(b, w.log).completed
  {
    hide Watched;
  }

  /** A turn that goes on leaves the login settled with a response from its own origin. */
  ghost predicate TurnOk(b: Birth, factors: Factors, turn: (World, Turned)) {
    match turn.1
    case Stop(r) => StepOk(b, (turn.0, r))
    case Go(next) =>
      && Settled(b, turn.0) && InStep(b, turn.0, factors)
      && SafeTarget(b, Watched(b, turn.0.log), Done(next))
  }

  lemma RedirectedKeeps(app: App, factors: Factors, b: Birth, w: World, location: Url,
                        sameOrigin: bool, kind: RedirectKind, followed: nat)
    requires SameClient(app, b.owner) && Settled(b, w) && InStep(b, w, factors)
    requires SafeTarget(b, Watched(b, w.log), Done(Redirect(location, sameOrigin, kind)))
    ensures TurnOk(b, factors, Redirected(b.laws, app, w, location, sameOrigin, followed))
  {
    hide CompleteAtCallback, Send, Watched, Completes, FlowOk, Target, SameEndpoint;
    CompleteKeeps(app, b, w, location);
    var (called, r) := CompleteAtCallback(b.laws, app, w, location);
    if r == Done(None) && sameOrigin {
      SendKeeps(b, called, location, Followed);
    }
  }

  lemma TurnKeeps(app: App, factors: Factors, b: Birth, w: World,
                  fetched: Fetched, posted: bool, followed: nat)
    requires SameClient(app, b.owner) && InStep(b, w, factors)
    requires Sound(b, w) && SafeTarget(b, Watched(b, w.log), Done(fetched))
    requires Settled(b, w) || (posted && fetched.Redirect? && RepeatsRequest(fetched.kind))
    ensures TurnOk(b, factors, Turn(b.laws, app, factors, w, fetched, posted, followed))
  {
    hide Present, Redirected, Watched, Target, Completes, FlowOk, SameClient;
    ExpireKeeps(b, w);
    var due := ExpireIfDue(b.laws, w);
    if due.flow.lifecycle.Active? {
      match fetched
      case Page(url, status, body) =>
        if status == 200 {
          PresentKeeps(factors, b, due, url, body);
        }
      case Redirect(location, sameOrigin, kind) =>
        if !(posted && RepeatsRequest(kind)) {
          RedirectedKeeps(app, factors, b, due, location, sameOrigin, kind, followed);
        }
    }
  }

  lemma {:induction false} ResolveKeeps(app: App, factors: Factors, b: Birth, w: World,
                                        fetched: Fetched, posted: bool, followed: nat)
    requires SameClient(app, b.owner) && InStep(b, w, factors)
    requires followed <= MAX_REDIRECTS && Sound(b, w) && SafeTarget(b, Watched(b, w.log), Done(fetched))
    requires Settled(b, w) || (posted && fetched.Redirect? && RepeatsRequest(fetched.kind))
    ensures StepOk(b, Resolve(b.laws, app, factors, w, fetched, posted, followed))
    decreases MAX_REDIRECTS - followed
  {
    hide Turn, Watched, SafeTarget, Completes, FlowOk, SameClient;
    TurnKeeps(app, factors, b, w, fetched, posted, followed);
    var (after, turned) := Turn(b.laws, app, factors, w, fetched, posted, followed);
    if turned.Go? && followed < MAX_REDIRECTS {
      ResolveKeeps(app, factors, b, after, turned.next, false, followed + 1);
    }
  }

  lemma VisitKeeps(app: App, factors: Factors, b: Birth, w: World, url: Url, cause: Cause)
    requires SameClient(app, b.owner) && InStep(b, w, factors)
    requires Settled(b, w) && w.flow.lifecycle.Active?
    requires OriginOf(url) == b.Home() && CauseOk(b, Watched(b, w.log), url, cause)
    ensures StepOk(b, Visit(b.laws, app, factors, w, url, cause))
  {
    hide Resolve, Send, Watched, CauseOk, SafeTarget, Completes, FlowOk, SameClient;
    SendKeeps(b, w, url, cause);
    var (sent, next) := Send(b.laws, w, url, cause);
    if next.Done? {
      ResolveKeeps(app, factors, b, sent, next.value, cause.Posted?, 0);
    }
  }

  lemma FirstPageKeeps(app: App, factors: Factors, b: Birth, start: Start, w: World)
    requires BeginsAt(b, app) && Settled(b, w)
    requires Watched(b, w.log).call == Some(Begin(app, factors, start))
    requires Watched(b, w.log).hint == start.loginHint
    ensures StepOk(b, FirstPage(b.laws, app, factors, start, w))
  {
    hide Visit, Endpoints.AuthorizationUrl, Watched, PendingOk, LoginClient;
    ExpireKeeps(b, w);
    var due := ExpireIfDue(b.laws, w);
    if due.flow.lifecycle.Active? {
      var request := Endpoints.Request(app.clientId, app.redirectText, start.loginHint, start.scopes,
                                       due.flow.verifier, due.flow.state, due.flow.nonce);
      var url := Endpoints.AuthorizationUrl(app.authorization, request, b.laws.digest);
      if url.Ok? {
        ClientsToldApart(app, b.owner);
        var named := due.(flow := due.flow.(client := LoginClient(app), loginHint := start.loginHint));
        assert Opens(b, Begin(app, factors, start), url.value);
        VisitKeeps(app, factors, b, named, url.value, Began);
      }
    }
  }

  /** A form is posted only once its page's challenges are all answered. */
  lemma PostKeeps(app: App, factors: Factors, b: Birth, w: World, page: Pending)
    requires SameClient(app, b.owner) && InStep(b, w, factors)
    requires Settled(b, w) && w.flow.lifecycle.Active?
    requires OriginOf(page.form.action) == b.Home()
    requires var m := Watched(b, w.log);
             m.page.Some? && Settles(m.page.value, page) && page.answers == m.given
    ensures StepOk(b, PostPage(b.laws, app, factors, w, page))
  {
    hide Visit, Submitted, Watched, Settles, SameClient, FlowOk, Acceptable, Filled;
    var answers := factors.fields(page.kind, page.answers);
    if factors.supports(page.kind) && answers.Ok? {
      var fields := Submitted(page.form, answers.value);
      if fields.Ok? && b.laws.fits(Requests.PairsOf(fields.value)) {
        SubmittedFills(factors, page);
        VisitKeeps(app, factors, b, w, page.form.action, Posted(page, fields.value));
      }
    }
  }

  lemma SubmittedFills(factors: Factors, page: Pending)
    requires var answers := factors.fields(page.kind, page.answers);
             answers.Ok? && Submitted(page.form, answers.value).Ok?
    ensures var answers := factors.fields(page.kind, page.answers);
            Fills(factors, page, Submitted(page.form, answers.value).value)
  {
    hide Acceptable, Filled;
  }

  lemma NextKeeps(app: App, factors: Factors, b: Birth, w: World, page: Pending,
                  answer: Answer)
    requires SameClient(app, b.owner) && InStep(b, w, factors)
    requires Settled(b, w) && w.flow.lifecycle.Active?
    requires PendingOk(b, Watched(b, w.log), page) && Check(page.expected, answer).Ok?
    requires page.answers + [answer] == Watched(b, w.log).given
    ensures var answered := page.(answers := page.answers + [answer]);
            StepOk(b, NextChallenge(b.laws, app, factors, w, answered))
  {
    hide PostPage, Check, Watched, SameClient, Completes, ExpectOf;
    var answered := page.(answers := page.answers + [answer]);
    var shown := Watched(b, w.log).page.value;
    assert Passes(shown.challenges[|page.answers|], answer);
    assert PrefixPasses(shown.challenges, answered.answers);
    if page.queue == [] {
      PostKeeps(app, factors, b, w, answered);
    } else {
      var waiting := answered.(expected := ExpectOf(page.queue[0]), queue := page.queue[1..]);
      assert Splits(waiting, shown.challenges);
    }
  }

  /** The call's answer is the last given, the page has those before it. */
  predicate Answers(m: Watch, flow: Flow, answer: Answer) {
    && flow.loginHint == m.hint
    && (flow.pending.Some? ==> flow.pending.value.answers + [answer] == m.given)
  }

  lemma AnswerKeeps(app: App, factors: Factors, b: Birth, w: World, answer: Answer)
    requires Settled(b, w)
    requires StepFactors(Watched(b, w.log).call) == Some(factors)
    requires w.flow.lifecycle.Active? ==> Answers(Watched(b, w.log), w.flow, answer)
    ensures StepOk(b, AnswerPage(b.laws, app, factors, w, answer))
  {
    hide NextChallenge, Check, Watched, PendingOk, LoginClient, SameClient;
    ExpireKeeps(b, w);
    var due := ExpireIfDue(b.laws, w);
    if due.flow.lifecycle.Active? && due.flow.pending.Some? {
      var page := due.flow.pending.value;
      var taken := due.(flow := due.flow.(pending := None));
      if due.flow.client == LoginClient(app) && Check(page.expected, answer).Ok? {
        ClientNamed(app);
        ClientsToldApart(app, b.owner);
        NextKeeps(app, factors, b, taken, page, answer);
      }
    }
  }

  lemma ClientNamed(app: App)
    ensures LoginClient(app) != ""
  {
    assert |LoginClient(app)| >= 2;
  }

  lemma GuardedKeeps(b: Birth, step: (World, Reply<AuthStep>))
    requires StepOk(b, step)
    ensures Rested(b, Guarded(b.laws, step).0)
  {
    hide Watched, Completes, Shows, CauseOk, LinesAt;
    var (w, r) := step;
    FailKeeps(b, w);
    Appended(b, w.log, Returned(r));
  }

  /** Where, and for whom, a login of this birth begins. */
  predicate BeginsAt(b: Birth, app: App) {
    OriginOf(app.authorization) == b.Home() && SameClient(app, b.owner)
  }

  lemma EnterKeeps(b: Birth, w: World, call: Call)
    requires Rested(b, w)
    ensures var entered := Log(w, Entered(call));
            var m := Watched(b, entered.log);
            && Settled(b, entered) && m.call == Some(call)
            && (call.Begin? ==> m.hint == call.start.loginHint)
            && (!call.Begin? && !call.Advance? ==> Rested(b, entered))
            && (call.Advance? && w.flow.lifecycle.Active? ==> Answers(m, entered.flow, call.answer))
  {
    hide Watched, Completes, Shows, CauseOk, LinesAt;
    Appended(b, w.log, Entered(call));
  }

  /** Every call keeps the login at rest; pages are only ever begun at the login's own home and for
      its own client. */
  lemma CallKeeps(b: Birth, w: World, call: Call)
    requires Rested(b, w)
    requires call.Begin? ==> BeginsAt(b, call.app)
    ensures Rested(b, Called(b.laws, w, call))
  {
    hide FirstPage, AnswerPage, ExchangeCode, Watched, FlowOk, Guarded, SameClient;
    EnterKeeps(b, w, call);
    var entered := Log(w, Entered(call));
    ExpireKeeps(b, entered);
    match call
    case Begin(app, factors, start) =>
      FirstPageKeeps(app, factors, b, start, entered);
      GuardedKeeps(b, FirstPage(b.laws, app, factors, start, entered));
    case Advance(app, factors, answer) =>
      AnswerKeeps(app, factors, b, entered, answer);
      GuardedKeeps(b, AnswerPage(b.laws, app, factors, entered, answer));
    case CancelLogin => EndKeeps(b, ExpireIfDue(b.laws, entered), Lifecycle.Cancelled);
    case AskIfActive =>
    case Redeeming(app, code) => ExchangeKeeps(app, b, entered, code);
    case AbandonRedeeming => FailKeeps(b, entered);
  }

  lemma {:induction false} RunKeeps(b: Birth, w: World, calls: seq<Call>)
    requires Rested(b, w)
    requires forall call <- calls :: call.Begin? ==> BeginsAt(b, call.app)
    ensures Rested(b, Run(b.laws, w, calls))
    decreases |calls|
  {
    hide Called, Rested, BeginsAt;
    if calls != [] {
      CallKeeps(b, w, calls[0]);
      RunKeeps(b, Called(b.laws, w, calls[0]), calls[1..]);
    }
  }
}
