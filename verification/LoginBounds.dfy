/** How much one step asks of the server, when a login ends, and that it ends only once. */
module LoginBounds {
  import opened Common
  import opened Urls
  import opened CookieJar
  import opened Challenges
  import opened Login
  import opened LoginProofs
  import Endpoints
  import Forms
  import Grants
  import Pages
  import Requests

  function PageCount(log: seq<Event>): nat {
    if log == [] then 0
    else PageCount(log[..|log| - 1]) + if log[|log| - 1].PageAsked? then 1 else 0
  }

  function PostCount(log: seq<Event>): nat {
    if log == [] then 0
    else PostCount(log[..|log| - 1]) + if IsPost(log[|log| - 1]) then 1 else 0
  }

  /** The calls a log records. */
  function CallsIn(log: seq<Event>): seq<Call> {
    if log == [] then []
    else CallsIn(log[..|log| - 1]) + if log[|log| - 1].Entered? then [log[|log| - 1].call] else []
  }

  /** A login is recorded as expired exactly when its last clock reading was at or past its
      deadline; the reading that set the deadline does not count. */
  predicate Timely(laws: Laws, w: World) {
    w.ticks > 0 &&
    (w.flow.lifecycle.Expired? <==> w.ticks > 1 && laws.clock(w.ticks - 1) >= w.flow.deadline)
  }

  /** The login remembers the same client and user. */
  predicate SameOwner(w: World, after: World) {
    after.flow.client == w.flow.client && after.flow.loginHint == w.flow.loginHint
  }

  /** What any part of a step does at most. */
  ghost predicate Moves(laws: Laws, w: World, after: World, pages: nat, posts: nat) {
    Bounded(laws, w, after, pages, posts) && SameOwner(w, after)
  }

  ghost predicate Bounded(laws: Laws, w: World, after: World, pages: nat, posts: nat) {
    && after.flow.deadline == w.flow.deadline
    && (!w.flow.lifecycle.Active? ==> after.flow.lifecycle == w.flow.lifecycle)
    && (Timely(laws, w) ==> Timely(laws, after))
    && PageCount(after.log) <= PageCount(w.log) + pages
    && PostCount(after.log) <= PostCount(w.log) + posts
    && |w.log| <= |after.log| && CallsIn(after.log) == CallsIn(w.log)
  }

  lemma BoundedOn(laws: Laws, w: World, mid: World, after: World, pages: nat, posts: nat,
                  morePages: nat, morePosts: nat)
    requires Bounded(laws, w, mid, pages, posts) && Bounded(laws, mid, after, morePages, morePosts)
    ensures Bounded(laws, w, after, pages + morePages, posts + morePosts)
  {
    hide Timely, PageCount, PostCount;
  }

  lemma MovesOn(laws: Laws, w: World, mid: World, after: World, pages: nat, posts: nat,
                morePages: nat, morePosts: nat)
    requires Moves(laws, w, mid, pages, posts) && Moves(laws, mid, after, morePages, morePosts)
    ensures Moves(laws, w, after, pages + morePages, posts + morePosts)
  {
    hide Timely, PageCount, PostCount;
  }

  lemma CountsGrow(log: seq<Event>, e: Event)
    ensures PageCount(log + [e]) == PageCount(log) + if e.PageAsked? then 1 else 0
    ensures PostCount(log + [e]) == PostCount(log) + if IsPost(e) then 1 else 0
    ensures CallsIn(log + [e]) == CallsIn(log) + if e.Entered? then [e.call] else []
  {
    assert (log + [e])[..|log|] == log;
  }

  lemma ExpireMoves(laws: Laws, w: World)
    ensures Moves(laws, w, ExpireIfDue(laws, w), 0, 0)
  {
  }

  lemma EndMoves(laws: Laws, w: World, to: Lifecycle)
    requires to != Lifecycle.Expired
    ensures Moves(laws, w, End(w, to), 0, 0)
  {
  }

  lemma FailMoves(laws: Laws, w: World)
    ensures Moves(laws, w, Fail(laws, w), 0, 0)
  {
    hide Moves, ExpireIfDue;
    ExpireMoves(laws, w);
    EndMoves(laws, ExpireIfDue(laws, w), Lifecycle.Failed);
    MovesOn(laws, w, ExpireIfDue(laws, w), Fail(laws, w), 0, 0, 0, 0);
  }

  lemma LogMoves(laws: Laws, w: World, after: World, e: Event)
    requires after.log == w.log + [e] && !e.Entered? && after.ticks == w.ticks
    requires after.flow.deadline == w.flow.deadline && after.flow.lifecycle == w.flow.lifecycle
    requires SameOwner(w, after)
    ensures Moves(laws, w, after, if e.PageAsked? then 1 else 0, if IsPost(e) then 1 else 0)
  {
    CountsGrow(w.log, e);
  }

  lemma SendMoves(laws: Laws, w: World, url: Url, cause: Cause)
    ensures Moves(laws, w, Send(laws, w, url, cause).0, 1, if cause.Posted? then 1 else 0)
  {
    hide Moves, FetchedOf, Replaced, LinesAt;
    var x, posts := laws.net(w.awaits), if cause.Posted? then 1 else 0;
    Still(laws, w, 1, posts);
    var e := PageRequest(laws, w, url, cause);
    var asked := Sent(w, e);
    LogMoves(laws, w, asked, e);
    if x.outcome.Answered? {
      var o := x.outcome;
      var came := PageCame(Response(url, o.cookies, o.at), o.status, o.location, o.body);
      var after := Received(asked, url, o.cookies, o.at, o.status, o.location, o.body);
      LogMoves(laws, asked, after, came);
      MovesOn(laws, w, asked, after, 1, posts, 0, 0);
    }
  }

  lemma RequestMoves(laws: Laws, app: App, w: World, code: string)
    ensures Moves(laws, w, RequestTokens(laws, app, w, code).0, 0, 0)
  {
    hide Moves, GrantFields;
    var e := CodeAsked(w.awaits, code, w.flow.verifier);
    LogMoves(laws, w, Sent(w, e), e);
    Still(laws, w, 0, 0);
  }

  lemma VerifyMoves(laws: Laws, app: App, w: World, tokens: Grants.Tokens, nonce: string)
    ensures Moves(laws, w, VerifyTokens(laws, app, w, tokens, nonce).0, 0, 0)
  {
    hide Bounded, VerifyTokens;
    VerifyLogs(laws, app, w, tokens, nonce);
    var after := VerifyTokens(laws, app, w, tokens, nonce).0;
    if after.log == w.log {
      Still(laws, w, 0, 0);
      SameMoves(laws, w, w, after, 0, 0);
    } else {
      LogMoves(laws, w, after, KeysAsked(w.awaits));
    }
  }

  lemma RedeemMoves(laws: Laws, app: App, w: World, code: string)
    ensures Moves(laws, w, Redeem(laws, app, w, code).0, 0, 0)
  {
    hide Moves, RequestTokens, VerifyTokens;
    var (asked, r) := RequestTokens(laws, app, w, code);
    RequestMoves(laws, app, w, code);
    if r.Done? {
      VerifyMoves(laws, app, asked, r.value, w.flow.nonce);
      MovesOn(laws, w, asked, Redeem(laws, app, w, code).0, 0, 0, 0, 0);
    }
  }

  lemma ExchangedMoves(laws: Laws, app: App, w: World, code: string)
    ensures Moves(laws, w, Exchanged(laws, app, w, code).0, 0, 0)
  {
    hide Moves, ExpireIfDue, Redeem;
    var due := ExpireIfDue(laws, w);
    ExpireMoves(laws, w);
    if due.flow.lifecycle.Active? {
      var redeemed := Redeem(laws, app, due, code).0;
      RedeemMoves(laws, app, due, code);
      MovesOn(laws, w, due, redeemed, 0, 0, 0, 0);
      var last := ExpireIfDue(laws, redeemed);
      ExpireMoves(laws, redeemed);
      MovesOn(laws, w, redeemed, last, 0, 0, 0, 0);
      EndMoves(laws, last, Lifecycle.Finished);
      MovesOn(laws, w, last, End(last, Lifecycle.Finished), 0, 0, 0, 0);
    }
  }

  lemma ExchangeMoves(laws: Laws, app: App, w: World, code: string)
    ensures Moves(laws, w, ExchangeCode(laws, app, w, code).0, 0, 0)
  {
    hide Moves, Exchanged, Fail;
    var after := Exchanged(laws, app, w, code).0;
    ExchangedMoves(laws, app, w, code);
    FailMoves(laws, after);
    MovesOn(laws, w, after, Fail(laws, after), 0, 0, 0, 0);
  }

  lemma CompleteMoves(laws: Laws, app: App, w: World, location: Url)
    ensures Moves(laws, w, CompleteAtCallback(laws, app, w, location).0, 0, 0)
  {
    hide Moves, ExpireIfDue, ExchangeCode, Fail, CodeIn, SameEndpoint;
    var due := ExpireIfDue(laws, w);
    ExpireMoves(laws, w);
    if due.flow.lifecycle.Active? {
      var (called, r) := Callback(laws, due, location, Registered(laws, app));
      ExpireMoves(laws, due);
      MovesOn(laws, w, due, ExpireIfDue(laws, due), 0, 0, 0, 0);
      FailMoves(laws, called);
      MovesOn(laws, w, called, Fail(laws, called), 0, 0, 0, 0);
      if r.Ok? && r.value.Some? {
        ExchangeMoves(laws, app, called, r.value.value);
        MovesOn(laws, w, called, ExchangeCode(laws, app, called, r.value.value).0, 0, 0, 0, 0);
      }
    }
  }

  lemma PromptMoves(laws: Laws, factors: Factors, w: World, kind: Pages.PageKind, form: Forms.Form)
    ensures Moves(laws, w, Prompt(factors, w, kind, form).0, 0, 0)
  {
    hide Moves, ExpectOf;
    var challenges := factors.challenges(kind, w.flow.loginHint);
    Still(laws, w, 0, 0);
    if factors.supports(kind) && challenges.Ok? && challenges.value != [] {
      LogMoves(laws, w, Prompt(factors, w, kind, form).0, Presented(kind, form, challenges.value));
    }
  }

  lemma PresentMoves(laws: Laws, factors: Factors, w: World, url: Url, body: Utf8.Bytes)
    ensures Moves(laws, w, Present(laws, factors, w, url, body).0, 0, 0)
  {
    hide Moves, Forms.Extract, Prompt, Fail, BodyTokens;
    Still(laws, w, 0, 0);
    FailMoves(laws, w);
    var page := Forms.Extract(url, BodyTokens(laws, body), laws.join);
    if page.Ok? {
      PromptMoves(laws, factors, w, page.value.0, page.value.1);
    }
  }

  /** A turn sends at most one page request, only when it goes on, and never a post. */
  lemma TurnMoves(laws: Laws, app: App, factors: Factors, w: World, fetched: Fetched, posted: bool,
                  followed: nat)
    ensures var (after, turned) := Turn(laws, app, factors, w, fetched, posted, followed);
            && Moves(laws, w, after, if followed == MAX_REDIRECTS then 0 else 1, 0)
            && (turned.Go? ==> followed != MAX_REDIRECTS)
  {
    hide Moves, ExpireIfDue, Present, CompleteAtCallback, Send;
    var due := ExpireIfDue(laws, w);
    var n := if followed == MAX_REDIRECTS then 0 else 1;
    ExpireMoves(laws, w);
    Slack(laws, w, due, n);
    if due.flow.lifecycle.Active? {
      match fetched
      case Page(url, status, body) =>
        PresentMoves(laws, factors, due, url, body);
        MovesOn(laws, w, due, Present(laws, factors, due, url, body).0, 0, 0, 0, 0);
        Slack(laws, w, Present(laws, factors, due, url, body).0, n);
      case Redirect(location, sameOrigin, kind) =>
        var called := CompleteAtCallback(laws, app, due, location).0;
        CompleteMoves(laws, app, due, location);
        MovesOn(laws, w, due, called, 0, 0, 0, 0);
        Slack(laws, w, called, n);
        SendMoves(laws, called, location, Followed);
        MovesOn(laws, w, called, Send(laws, called, location, Followed).0, 0, 0, 1, 0);
    }
  }

  lemma Slack(laws: Laws, w: World, after: World, pages: nat)
    requires Moves(laws, w, after, 0, 0)
    ensures Moves(laws, w, after, pages, 0)
  {
  }

  lemma {:induction false} ResolveMoves(laws: Laws, app: App, factors: Factors, w: World,
                                        fetched: Fetched, posted: bool, followed: nat)
    requires followed <= MAX_REDIRECTS
    ensures Moves(laws, w, Resolve(laws, app, factors, w, fetched, posted, followed).0,
                  MAX_REDIRECTS - followed, 0)
    decreases MAX_REDIRECTS - followed
  {
    hide Moves, Turn;
    var (after, turned) := Turn(laws, app, factors, w, fetched, posted, followed);
    TurnMoves(laws, app, factors, w, fetched, posted, followed);
    if turned.Go? {
      ResolveMoves(laws, app, factors, after, turned.next, false, followed + 1);
      MovesOn(laws, w, after,
              Resolve(laws, app, factors, after, turned.next, false, followed + 1).0,
              1, 0, MAX_REDIRECTS - followed - 1, 0);
    } else {
      var used, rest := 0, 0;
      if followed < MAX_REDIRECTS {
        used, rest := 1, MAX_REDIRECTS - followed - 1;
      }
      Still(laws, after, rest, 0);
      MovesOn(laws, w, after, after, used, 0, rest, 0);
    }
  }

  lemma Still(laws: Laws, w: World, pages: nat, posts: nat)
    ensures Moves(laws, w, w, pages, posts)
  {
  }

  lemma VisitMoves(laws: Laws, app: App, factors: Factors, w: World, url: Url, cause: Cause)
    ensures Moves(laws, w, Visit(laws, app, factors, w, url, cause).0, MAX_REDIRECTS + 1,
                  if cause.Posted? then 1 else 0)
  {
    hide Moves, Send, Resolve;
    var (sent, next) := Send(laws, w, url, cause);
    var posts := if cause.Posted? then 1 else 0;
    SendMoves(laws, w, url, cause);
    Still(laws, sent, MAX_REDIRECTS, 0);
    MovesOn(laws, w, sent, sent, 1, posts, MAX_REDIRECTS, 0);
    if next.Done? {
      ResolveMoves(laws, app, factors, sent, next.value, cause.Posted?, 0);
      MovesOn(laws, w, sent, Resolve(laws, app, factors, sent, next.value, cause.Posted?, 0).0,
              1, posts, MAX_REDIRECTS, 0);
    }
  }

  /** Beginning a login also records whose it is. */
  lemma FirstPageMoves(laws: Laws, app: App, factors: Factors, start: Start, w: World)
    ensures var (after, r) := FirstPage(laws, app, factors, start, w);
            && Bounded(laws, w, after, MAX_REDIRECTS + 1, 0)
            && (r.Done? ==> after.flow.client == LoginClient(app)
                            && after.flow.loginHint == start.loginHint)
  {
    hide Bounded, ExpireIfDue, Visit, Endpoints.AuthorizationUrl, LoginClient;
    var due := ExpireIfDue(laws, w);
    ExpireMoves(laws, w);
    Slack(laws, w, due, MAX_REDIRECTS + 1);
    var request := Endpoints.Request(app.clientId, app.redirectText, start.loginHint, start.scopes,
                                     due.flow.verifier, due.flow.state, due.flow.nonce);
    var url := Endpoints.AuthorizationUrl(app.authorization, request, laws.digest);
    if due.flow.lifecycle.Active? && url.Ok? {
      var named := due.(flow := due.flow.(client := LoginClient(app), loginHint := start.loginHint));
      NamedBounded(laws, w, due, named);
      VisitMoves(laws, app, factors, named, url.value, Began);
      BoundedOn(laws, w, named, Visit(laws, app, factors, named, url.value, Began).0,
                0, 0, MAX_REDIRECTS + 1, 0);
    }
  }

  lemma NamedBounded(laws: Laws, w: World, due: World, named: World)
    requires Bounded(laws, w, due, 0, 0)
    requires named.log == due.log && named.ticks == due.ticks
    requires named.flow.deadline == due.flow.deadline && named.flow.lifecycle == due.flow.lifecycle
    ensures Bounded(laws, w, named, 0, 0)
  {
  }

  /** Fields other than the lifecycle and the deadline do not matter here. */
  lemma SameMoves(laws: Laws, w: World, mid: World, after: World, pages: nat, posts: nat)
    requires Moves(laws, w, mid, pages, posts)
    requires after.log == mid.log && after.ticks == mid.ticks
    requires after.flow.deadline == mid.flow.deadline && after.flow.lifecycle == mid.flow.lifecycle
    requires SameOwner(mid, after)
    ensures Moves(laws, w, after, pages, posts)
  {
  }

  lemma PostMoves(laws: Laws, app: App, factors: Factors, w: World, page: Pending)
    ensures Moves(laws, w, PostPage(laws, app, factors, w, page).0, MAX_REDIRECTS + 1, 1)
  {
    hide Moves, Visit, Forms.Submitted;
    Still(laws, w, MAX_REDIRECTS + 1, 1);
    var answers := factors.fields(page.kind, page.answers);
    if answers.Ok? && Forms.Submitted(page.form, answers.value).Ok? {
      var fields := Forms.Submitted(page.form, answers.value).value;
      VisitMoves(laws, app, factors, w, page.form.action, Posted(page, fields));
    }
  }

  lemma NextMoves(laws: Laws, app: App, factors: Factors, w: World, page: Pending)
    ensures Moves(laws, w, NextChallenge(laws, app, factors, w, page).0, MAX_REDIRECTS + 1, 1)
  {
    hide Moves, PostPage, ExpectOf;
    Still(laws, w, MAX_REDIRECTS + 1, 1);
    PostMoves(laws, app, factors, w, page);
    if page.queue != [] {
      SameMoves(laws, w, w, NextChallenge(laws, app, factors, w, page).0, MAX_REDIRECTS + 1, 1);
    }
  }

  lemma AnswerMoves(laws: Laws, app: App, factors: Factors, w: World, answer: Answer)
    ensures Moves(laws, w, AnswerPage(laws, app, factors, w, answer).0, MAX_REDIRECTS + 1, 1)
  {
    hide Moves, ExpireIfDue, NextChallenge, Check, LoginClient;
    var due := ExpireIfDue(laws, w);
    ExpireMoves(laws, w);
    Still(laws, due, MAX_REDIRECTS + 1, 1);
    MovesOn(laws, w, due, due, 0, 0, MAX_REDIRECTS + 1, 1);
    if due.flow.lifecycle.Active? && due.flow.pending.Some? {
      var taken := due.(flow := due.flow.(pending := None));
      SameMoves(laws, w, due, taken, 0, 0);
      SameMoves(laws, w, due, taken, MAX_REDIRECTS + 1, 1);
      var page := due.flow.pending.value;
      var answered := page.(answers := page.answers + [answer]);
      NextMoves(laws, app, factors, taken, answered);
      MovesOn(laws, w, taken, NextChallenge(laws, app, factors, taken, answered).0,
              0, 0, MAX_REDIRECTS + 1, 1);
    }
  }

  lemma GuardedMoves(laws: Laws, w: World, step: (World, Reply<AuthStep>), posts: nat)
    requires Bounded(laws, w, step.0, MAX_REDIRECTS + 1, posts)
    ensures Bounded(laws, w, Guarded(laws, step).0, MAX_REDIRECTS + 1, posts)
    ensures SameOwner(step.0, Guarded(laws, step).0)
  {
    hide Bounded, Fail;
    var (after, r) := step;
    var ended := if r.Done? then after else Fail(laws, after);
    FailMoves(laws, after);
    Still(laws, after, 0, 0);
    BoundedOn(laws, w, after, ended, MAX_REDIRECTS + 1, posts, 0, 0);
    LogMoves(laws, ended, Guarded(laws, step).0, Returned(r));
    BoundedOn(laws, w, ended, Guarded(laws, step).0, MAX_REDIRECTS + 1, posts, 0, 0);
  }

  /** Whatever the server replies, a call makes at most six page requests, of which at most one is
      a form post, and that only when it answers a challenge; a login that has ended keeps its
      outcome; its expiry stays true to the clock; only beginning sets whose login it is; and the
      log names the call. */
  lemma CallMoves(laws: Laws, w: World, call: Call)
    ensures Bounded(laws, Log(w, Entered(call)), Called(laws, w, call),
                    if call.Begin? || call.Advance? then 6 else 0, if call.Advance? then 1 else 0)
    ensures !call.Begin? ==> SameOwner(w, Called(laws, w, call))
    ensures CallsIn(Called(laws, w, call).log) == CallsIn(w.log) + [call]
  {
    hide FirstPage, AnswerPage, ExchangeCode, ExpireIfDue, Fail, Guarded, Timely, PageCount, PostCount;
    var entered := Log(w, Entered(call));
    CountsGrow(w.log, Entered(call));
    ExpireMoves(laws, entered);
    match call
    case Begin(app, factors, start) =>
      FirstPageMoves(laws, app, factors, start, entered);
      GuardedMoves(laws, entered, FirstPage(laws, app, factors, start, entered), 0);
    case Advance(app, factors, answer) =>
      AnswerMoves(laws, app, factors, entered, answer);
      GuardedMoves(laws, entered, AnswerPage(laws, app, factors, entered, answer), 1);
    case CancelLogin =>
      EndMoves(laws, ExpireIfDue(laws, entered), Lifecycle.Cancelled);
      MovesOn(laws, entered, ExpireIfDue(laws, entered), Cancel(laws, entered), 0, 0, 0, 0);
    case AskIfActive =>
    case Redeeming(app, code) => ExchangeMoves(laws, app, entered, code);
    case AbandonRedeeming => FailMoves(laws, entered);
  }

  /** The log of a run names its calls, all of them and in order. */
  lemma {:induction false} CallsAreLogged(laws: Laws, w: World, calls: seq<Call>)
    ensures CallsIn(Run(laws, w, calls).log) == CallsIn(w.log) + calls
    decreases |calls|
  {
    hide Called, Bounded;
    if calls != [] {
      CallMoves(laws, w, calls[0]);
      CallsAreLogged(laws, Called(laws, w, calls[0]), calls[1..]);
      assert CallsIn(w.log) + [calls[0]] + calls[1..] == CallsIn(w.log) + calls;
    }
  }

  /** A login that began successfully remembers the client that began it, and its user, through
      every later call. */
  lemma OwnerRemembered(laws: Laws, w: World, app: App, factors: Factors,
                                           start: Start, later: seq<Call>)
    requires FirstPage(laws, app, factors, start, Log(w, Entered(Begin(app, factors, start)))).1.Done?
    requires forall call <- later :: !call.Begin?
    ensures var begun := Called(laws, w, Begin(app, factors, start));
            && Run(laws, begun, later).flow.client == LoginClient(app)
            && Run(laws, begun, later).flow.loginHint == start.loginHint
  {
    hide FirstPage, Guarded, Run, Bounded, LoginClient;
    var entered := Log(w, Entered(Begin(app, factors, start)));
    FirstPageMoves(laws, app, factors, start, entered);
    GuardedMoves(laws, entered, FirstPage(laws, app, factors, start, entered), 0);
    OwnerKept(laws, Called(laws, w, Begin(app, factors, start)), later);
  }

  lemma {:induction false} OwnerKept(laws: Laws, w: World, calls: seq<Call>)
    requires forall call <- calls :: !call.Begin?
    ensures SameOwner(w, Run(laws, w, calls))
    decreases |calls|
  {
    hide Called, Bounded;
    if calls != [] {
      CallMoves(laws, w, calls[0]);
      OwnerKept(laws, Called(laws, w, calls[0]), calls[1..]);
    }
  }

  /** Over any run, from any state: once a login has ended its outcome never changes, and it is
      recorded as expired exactly when its last clock reading was at or past the deadline. */
  lemma {:induction false} RunIsTimely(laws: Laws, w: World, calls: seq<Call>)
    requires Timely(laws, w)
    ensures Timely(laws, Run(laws, w, calls))
    ensures Run(laws, w, calls).flow.deadline == w.flow.deadline
    ensures !w.flow.lifecycle.Active? ==>
              Run(laws, w, calls).flow.lifecycle == w.flow.lifecycle
    decreases |calls|
  {
    hide Called, PageCount, PostCount, CallsIn;
    if calls != [] {
      CallMoves(laws, w, calls[0]);
      RunIsTimely(laws, Called(laws, w, calls[0]), calls[1..]);
    }
  }

  /** What an ended login still logs for a call: the call and, for a step, its refusal. */
  function Refusal(lifecycle: Lifecycle, call: Call): seq<Event>
    requires !lifecycle.Active?
  {
    [Entered(call)]
    + if call.Begin? || call.Advance? then [Returned(Refused(Status(lifecycle).error))] else []
  }

  function Refusals(lifecycle: Lifecycle, calls: seq<Call>): seq<Event>
    requires !lifecycle.Active?
  {
    if calls == [] then [] else Refusal(lifecycle, calls[0]) + Refusals(lifecycle, calls[1..])
  }

  lemma EndedDoesNothing(laws: Laws, w: World, call: Call)
    requires !w.flow.lifecycle.Active? && Wiped(w.flow)
    ensures Called(laws, w, call) == w.(log := w.log + Refusal(w.flow.lifecycle, call))
  {
    hide Visit, NextChallenge, Redeem, Endpoints.AuthorizationUrl, Check;
  }

  lemma DueExpires(laws: Laws, w: World, call: Call)
    requires w.flow.lifecycle.Active? && laws.clock(w.ticks) >= w.flow.deadline
    ensures var after := Called(laws, w, call);
            && after.flow.lifecycle.Expired? && Wiped(after.flow) && after.awaits == w.awaits
            && after.log == w.log + Refusal(Lifecycle.Expired, call)
  {
    hide Visit, NextChallenge, Redeem, Endpoints.AuthorizationUrl, Check;
  }

  /** Once a login has ended and is wiped, no later calls, however many, change any of its fields,
      read the clock, look at the keys or reach the server: all they leave is a refusal for each
      step. */
  lemma {:induction false} EndedForGood(laws: Laws, w: World, calls: seq<Call>)
    requires !w.flow.lifecycle.Active? && Wiped(w.flow)
    ensures Run(laws, w, calls) == w.(log := w.log + Refusals(w.flow.lifecycle, calls))
    decreases |calls|
  {
    hide Called, Wiped, Status;
    if calls != [] {
      var next := Called(laws, w, calls[0]);
      EndedDoesNothing(laws, w, calls[0]);
      EndedForGood(laws, next, calls[1..]);
      assert w.log + Refusal(w.flow.lifecycle, calls[0]) + Refusals(w.flow.lifecycle, calls[1..])
          == w.log + Refusals(w.flow.lifecycle, calls);
    }
  }

  /** A login whose next clock reading is at or past its deadline is over: whatever is called, and
      however often, the first call expires and wipes it, and nothing is sent ever after. */
  lemma DueIsOver(laws: Laws, w: World, calls: seq<Call>)
    requires w.flow.lifecycle.Active? && laws.clock(w.ticks) >= w.flow.deadline
    requires calls != []
    ensures var after := Run(laws, w, calls);
            && after.flow.lifecycle.Expired? && Wiped(after.flow) && after.awaits == w.awaits
            && after.log == w.log + Refusals(Lifecycle.Expired, calls)
  {
    hide Called, Wiped, Refusals, Status;
    RefusalsSplit(Lifecycle.Expired, calls);
    DueExpires(laws, w, calls[0]);
    EndedForGood(laws, Called(laws, w, calls[0]), calls[1..]);
    assert w.log + Refusal(Lifecycle.Expired, calls[0]) + Refusals(Lifecycle.Expired, calls[1..])
        == w.log + Refusals(Lifecycle.Expired, calls);
  }

  lemma RefusalsSplit(lifecycle: Lifecycle, calls: seq<Call>)
    requires !lifecycle.Active? && calls != []
    ensures Refusals(lifecycle, calls) ==
            Refusal(lifecycle, calls[0]) + Refusals(lifecycle, calls[1..])
  {
  }

  /** The next four clock readings are all before the deadline. */
  predicate InTime(laws: Laws, w: World) {
    && laws.clock(w.ticks) < w.flow.deadline && laws.clock(w.ticks + 1) < w.flow.deadline
    && laws.clock(w.ticks + 2) < w.flow.deadline && laws.clock(w.ticks + 3) < w.flow.deadline
  }

  /** The tokens a code redeems to: its form is small enough; the token request is answered with a grant
      that holds an ID token; the cache holds the token's key, or the next request answers with the
      issuer's keys; and the ID token passes with the keys then cached, at that time, for the client, its
      issuer and the flow's nonce. They are the granted tokens, recorded for that subject and client. */
  predicate RedeemsTo(laws: Laws, app: App, w: World, code: string, t: Grants.Tokens) {
    var n, reply := w.awaits, laws.net(w.awaits).outcome;
    && laws.fits(Requests.PairsOf(
         [("grant_type", "authorization_code"), ("client_id", app.clientId), ("code", code),
          ("redirect_uri", app.redirectText), ("code_verifier", w.flow.verifier)]))
    && reply.Answered? && laws.grant(true, reply.status, reply.body).Ok?
    && var granted := laws.grant(true, reply.status, reply.body).value;
       && granted.idToken.Some?
       && var known := laws.keyKnown(Cached(laws, w.looks, w.keys), granted.idToken.value);
          var fetched := known == Ok(false);
          && (known == Ok(true) || (fetched && FetchedAt(laws, n + 1).Some?))
          && laws.verify(laws.wall(if fetched then n + 2 else n + 1),
                         SecondLook(laws, w.looks, w.keys, n + 1, fetched), granted.idToken.value,
                         app.issuer, app.clientId, Some(w.flow.nonce)) == Ok(t.verifiedSubject)
          && t == granted.(verifiedSubject := t.verifiedSubject, verifiedIssuer := Some(app.issuer),
                           verifiedClient := Some(app.clientId), verifiedRefresh := granted.refresh)
  }

  /** A code is redeemed for tokens exactly when it redeems to them. */
  lemma RedeemsExactly(laws: Laws, app: App, w: World, code: string, t: Grants.Tokens)
    ensures Redeem(laws, app, w, code).1 == Done(t) <==> RedeemsTo(laws, app, w, code, t)
  {
    hide Requests.PairsOf;
    var reply := laws.net(w.awaits).outcome;
    if reply.Answered? && laws.grant(true, reply.status, reply.body).Ok? {
      var (asked, r) := RequestTokens(laws, app, w, code);
      if r.Done? {
        VerifiesExactly(laws, app, asked, r.value, w.flow.nonce, t);
      }
    }
  }

  lemma VerifiesExactly(laws: Laws, app: App, w: World, granted: Grants.Tokens, nonce: string,
                        t: Grants.Tokens)
    ensures VerifyTokens(laws, app, w, granted, nonce).1 == Done(t) <==>
            && granted.idToken.Some?
            && var known := laws.keyKnown(Cached(laws, w.looks, w.keys), granted.idToken.value);
               var fetched := known == Ok(false);
               && (known == Ok(true) || (fetched && FetchedAt(laws, w.awaits).Some?))
               && laws.verify(laws.wall(if fetched then w.awaits + 1 else w.awaits),
                              SecondLook(laws, w.looks, w.keys, w.awaits, fetched),
                              granted.idToken.value, app.issuer, app.clientId, Some(nonce))
                    == Ok(t.verifiedSubject)
               && t == granted.(verifiedSubject := t.verifiedSubject,
                                verifiedIssuer := Some(app.issuer),
                                verifiedClient := Some(app.clientId), verifiedRefresh := granted.refresh)
  {
  }

  /** An active login completes at a redirect, with these tokens, exactly when that is the registered
      callback with its own state and a code, the code redeems to the tokens, and four clock readings
      in a row come before the deadline; and then it is finished and wiped. */
  lemma CompletesExactly(laws: Laws, app: App, w: World, location: Url, t: Grants.Tokens)
    requires w.flow.lifecycle.Active?
    ensures var (after, r) := CompleteAtCallback(laws, app, w, location);
            var code := CodeIn(location.query, w.flow.state);
            && (r == Done(Some(Complete(t))) <==>
                 && SameEndpoint(location, Registered(laws, app)) && code.Ok? && InTime(laws, w)
                 && RedeemsTo(laws, app, w, code.value, t))
            && (r.Done? && r.value.Some? ==>
                 r.value.value.Complete? && after.flow.lifecycle.Finished? && Wiped(after.flow))
  {
    hide SameEndpoint, CodeIn, RequestTokens, VerifyTokens, RedeemsTo;
    var code := CodeIn(location.query, w.flow.state);
    if code.Ok? {
      RedeemKeepsClock(laws, app, w.(ticks := w.ticks + 3), code.value);
      RedeemsExactly(laws, app, w.(ticks := w.ticks + 3), code.value, t);
      SameRedemption(laws, app, w, w.(ticks := w.ticks + 3), code.value, t);
    }
  }

  lemma SameRedemption(laws: Laws, app: App, w: World, later: World, code: string, t: Grants.Tokens)
    requires later.awaits == w.awaits && later.looks == w.looks && later.keys == w.keys
    requires later.flow.verifier == w.flow.verifier && later.flow.nonce == w.flow.nonce
    ensures RedeemsTo(laws, app, w, code, t) <==> RedeemsTo(laws, app, later, code, t)
  {
    hide Requests.PairsOf;
  }

  /** Redeeming reads no clock and leaves the flow's fields alone. */
  lemma RedeemKeepsClock(laws: Laws, app: App, w: World, code: string)
    ensures var after := Redeem(laws, app, w, code).0;
            after.ticks == w.ticks && after.flow == w.flow
  {
    hide GrantFields, Verified;
  }

  /** A login that is still in time ends as it is ended, and every later step says so: cancelled, failed
      or, once it has completed, finished; one past its deadline is expired, whatever ended it. */
  lemma EndingsReported(laws: Laws, w: World, call: Call, app: App, factors: Factors, start: Start)
    requires w.flow.lifecycle.Active? && (call.CancelLogin? || call.AbandonRedeeming?)
    ensures var ended := Called(laws, w, call);
            var (after, r) := FirstPage(laws, app, factors, start, ended);
            && after == ended && Wiped(ended.flow)
            && r == Refused(
                 if laws.clock(w.ticks) >= w.flow.deadline then Error.Expired
                 else if call.CancelLogin? then Error.Cancelled
                 else Protocol("login flow failed"))
  {
    hide Visit, Endpoints.AuthorizationUrl;
  }

  /** And a finished login's later steps are refused as such. */
  lemma FinishedReported(laws: Laws, w: World, app: App, factors: Factors, start: Start, answer: Answer)
    requires w.flow.lifecycle.Finished?
    ensures FirstPage(laws, app, factors, start, w)
         == (w, Refused(Protocol("login flow already finished")))
    ensures AnswerPage(laws, app, factors, w, answer)
         == (w, Refused(Protocol("login flow already finished")))
  {
    hide Visit, Endpoints.AuthorizationUrl, NextChallenge, Check;
  }
}
