/** What a login does when the server serves it: where its redirects lead, and that a login whose user
    answers every page completes. */
module LoginProgress {
  import opened Common
  import opened Utf8
  import opened Urls
  import opened Pages
  import opened Forms
  import opened Challenges
  import opened CookieJar
  import opened Login
  import opened LoginProofs
  import opened LoginBounds
  import opened LoginRuns
  import Endpoints
  import Grants
  import Requests

  // Responses.

  /** A response is a redirect when its status is 301, 302, 303, 307 or 308, and then needs a Location
      that joins; any other status from 300 to 399 is refused; anything else is a page. Only 307 and 308
      ask for the same request again. */
  lemma ResponsesExactly(laws: Laws, url: Url, status: nat, location: Option<string>, body: Bytes)
    ensures var r := FetchedOf(laws, url, status, location, body);
            if status in {301, 302, 303, 307, 308} then
              if location.None? then r == Err(Protocol("redirect without Location"))
              else
                match laws.join(url, location.value)
                case None => r == Err(Protocol("invalid redirect Location"))
                case Some(target) =>
                  && r.Ok? && r.value.Redirect? && r.value.location == target
                  && (r.value.sameOrigin <==> SameOrigin(target, url))
                  && (RepeatsRequest(r.value.kind) <==> status == 307 || status == 308)
            else if 300 <= status <= 399 then r == Err(HttpStatus(status))
            else r == Ok(Page(url, status, body))
  {
    hide SameOrigin;
  }

  /** The world after one clock reading in time. */
  function Ticked(w: World): World {
    w.(ticks := w.ticks + 1)
  }

  /** The redirect that a response is, to `target`. */
  predicate RedirectsTo(laws: Laws, url: Url, status: nat, location: Option<string>, target: Url) {
    && status in {301, 302, 303, 307, 308}
    && location.Some? && laws.join(url, location.value) == Some(target)
  }

  /** What came of the request `n` for a URL. */
  function ReplyAt(laws: Laws, n: nat, url: Url): Result<Fetched> {
    match laws.net(n).outcome
    case Answered(_, status, location, _, body) => FetchedOf(laws, url, status, location, body)
    case _ => Err(Transport)
  }

  /** A redirect that arrives in time is judged at the callback when it points there, and completes the
      login or ends it; any other is followed, on the same origin and up to the fifth, and refused
      otherwise, with nothing more asked. Right after a post that holds for 301, 302 and 303, while 307
      and 308 are refused, even to the callback. */
  lemma RedirectJudged(laws: Laws, app: App, factors: Factors, w: World, url: Url, status: nat,
                       location: Option<string>, body: Bytes, target: Url, posted: bool, followed: nat)
    requires w.flow.lifecycle.Active? && followed <= 5
    requires laws.clock(w.ticks) < w.flow.deadline && laws.clock(w.ticks + 1) < w.flow.deadline
    requires RedirectsTo(laws, url, status, location, target)
    ensures FetchedOf(laws, url, status, location, body).Ok?
    ensures var fetched := FetchedOf(laws, url, status, location, body).value;
            var (after, turned) := Turn(laws, app, factors, w, fetched, posted, followed);
            if posted && (status == 307 || status == 308) then
              turned.Stop? && turned.reply.Refused? && after == Ticked(w)
            else if SameEndpoint(target, Registered(laws, app)) then
              var (judged, r) := CompleteAtCallback(laws, app, Ticked(w), target);
              && after == judged && turned.Stop? && !judged.flow.lifecycle.Active?
              && (forall t :: turned.reply == Done(Complete(t)) <==> r == Done(Some(Complete(t))))
            else if SameOrigin(target, url) && followed < 5 && target.scheme == "https" then
              && after.awaits == w.awaits + 1
              && w.log + [PageRequest(laws, w, target, Followed)] <= after.log
              && match ReplyAt(laws, w.awaits, target)
                 case Ok(next) => turned == Go(next)
                 case Err(_) => turned.Stop? && !turned.reply.Done?
            else
              turned.Stop? && turned.reply.Refused? && after == Ticked(Ticked(w))
  {
    hide SameEndpoint, SameOrigin, ExchangeCode, LinesAt, Replaced, CodeIn;
    ResponsesExactly(laws, url, status, location, body);
    if SameEndpoint(target, Registered(laws, app)) {
      JudgedEnds(laws, app, Ticked(w), target);
    }
  }

  /** A redirect to the callback ends the login. */
  lemma JudgedEnds(laws: Laws, app: App, w: World, target: Url)
    requires SameEndpoint(target, Registered(laws, app))
    ensures var (after, r) := CompleteAtCallback(laws, app, w, target);
            && !after.flow.lifecycle.Active? && r != Done(None)
            && (r.Done? ==> r.value.Some? && r.value.value.Complete?)
  {
    hide CodeIn, SameEndpoint, Exchanged;
  }

  // A served login.

  ghost predicate Punctual(laws: Laws, deadline: nat) {
    forall n: nat :: laws.clock(n) < deadline
  }

  /** From request `n` for a URL on, the server redirects from target to target: never, right after a
      post, with 307 or 308, always over HTTPS to the same origin, and not to the callback. */
  predicate Leads(laws: Laws, app: App, n: nat, url: Url, posted: bool, targets: seq<Url>)
    decreases |targets|
  {
    targets == []
    || (var o := laws.net(n).outcome;
        && o.Answered? && RedirectsTo(laws, url, o.status, o.location, targets[0])
        && !(posted && (o.status == 307 || o.status == 308))
        && SameOrigin(targets[0], url) && targets[0].scheme == "https"
        && !SameEndpoint(targets[0], Registered(laws, app))
        && Leads(laws, app, n + 1, targets[0], false, targets[1..]))
  }

  function LastOf(url: Url, targets: seq<Url>): Url {
    if targets == [] then url else targets[|targets| - 1]
  }

  /** Nothing of the login changed but its cookies, its clock and the requests it made. */
  predicate Continues(w: World, after: World) {
    && after.flow == w.flow.(jar := after.flow.jar)
    && after.looks == w.looks && after.keys == w.keys
  }

  lemma SendReplies(laws: Laws, w: World, url: Url, cause: Cause)
    requires url.scheme == "https" && ReplyAt(laws, w.awaits, url).Ok?
    ensures var (after, r) := Send(laws, w, url, cause);
            && r == Done(ReplyAt(laws, w.awaits, url).value)
            && Continues(w, after) && after.awaits == w.awaits + 1
  {
    hide FetchedOf, LinesAt, Replaced;
  }

  /** Every redirect of the server's is followed, up to five. */
  lemma {:induction false} FollowsAll(laws: Laws, app: App, factors: Factors, w: World, n: nat, url: Url,
                                      posted: bool, followed: nat, targets: seq<Url>)
      returns (after: World)
    requires w.flow.lifecycle.Active? && Punctual(laws, w.flow.deadline) && w.awaits == n + 1
    requires Leads(laws, app, n, url, posted, targets) && followed + |targets| <= 5
    requires ReplyAt(laws, n + |targets|, LastOf(url, targets)).Ok?
    ensures ReplyAt(laws, n, url).Ok?
    ensures Continues(w, after) && after.awaits == n + |targets| + 1
    ensures Resolve(laws, app, factors, w, ReplyAt(laws, n, url).value, posted, followed) ==
            Resolve(laws, app, factors, after,
                    ReplyAt(laws, n + |targets|, LastOf(url, targets)).value,
                    posted && targets == [], followed + |targets|)
    decreases |targets|
  {
    hide Turn, FetchedOf, SameOrigin, SameEndpoint, RedirectsTo;
    if targets == [] {
      after := w;
    } else {
      var o, target := laws.net(n).outcome, targets[0];
      RedirectFollowed(laws, app, factors, w, url, o.status, o.location, o.body, target, posted, followed);
      assert ReplyAt(laws, n + 1, target).Ok? by {
        NextReplies(laws, app, n + 1, target, targets[1..]);
        assert LastOf(target, targets[1..]) == LastOf(url, targets);
      }
      var (sent, turned) := Turn(laws, app, factors, w, ReplyAt(laws, n, url).value, posted, followed);
      after := FollowsAll(laws, app, factors, sent, n + 1, target, false, followed + 1, targets[1..]);
      assert LastOf(target, targets[1..]) == LastOf(url, targets);
    }
  }

  lemma NextReplies(laws: Laws, app: App, n: nat, url: Url, targets: seq<Url>)
    requires Leads(laws, app, n, url, false, targets)
    requires ReplyAt(laws, n + |targets|, LastOf(url, targets)).Ok?
    ensures ReplyAt(laws, n, url).Ok?
  {
    if targets != [] {
      var o := laws.net(n).outcome;
      ResponsesExactly(laws, url, o.status, o.location, o.body);
    }
  }

  lemma RedirectFollowed(laws: Laws, app: App, factors: Factors, w: World, url: Url, status: nat,
                         location: Option<string>, body: Bytes, target: Url, posted: bool,
                         followed: nat)
    requires w.flow.lifecycle.Active? && Punctual(laws, w.flow.deadline) && followed < 5
    requires RedirectsTo(laws, url, status, location, target)
    requires !(posted && (status == 307 || status == 308))
    requires SameOrigin(target, url) && target.scheme == "https"
    requires !SameEndpoint(target, Registered(laws, app))
    ensures FetchedOf(laws, url, status, location, body).Ok?
    ensures ReplyAt(laws, w.awaits, target).Ok? ==>
              var fetched := FetchedOf(laws, url, status, location, body).value;
              var (after, turned) := Turn(laws, app, factors, w, fetched, posted, followed);
              && turned == Go(ReplyAt(laws, w.awaits, target).value)
              && Continues(w, after) && after.awaits == w.awaits + 1
  {
    hide SameEndpoint, SameOrigin, ExchangeCode, CodeIn, Send, ReplyAt;
    ResponsesExactly(laws, url, status, location, body);
    if ReplyAt(laws, w.awaits, target).Ok? {
      SendReplies(laws, Ticked(Ticked(w)), target, Followed);
    }
  }

  /** A page on the way: the redirects that lead to it, what it is, what it asks, and the answers it is
      given. */
  datatype Leg = Leg(
    hops: seq<Url>,
    kind: PageKind,
    form: Form,
    challenges: seq<Challenge>,
    answers: seq<Answer>)

  /** Request `n` for a URL is answered with the leg's page: status 200, a page that extracts to its kind
      and form, that rejects nothing, and that the factors have the leg's challenges for. */
  predicate ServesPage(laws: Laws, factors: Factors, hint: Option<string>, n: nat, url: Url, leg: Leg) {
    var o := laws.net(n).outcome;
    && o.Answered? && o.status == 200
    && Extract(url, BodyTokens(laws, o.body), laws.join) == Ok((leg.kind, leg.form))
    && Rejection(leg.kind).None?
    && factors.supports(leg.kind) && factors.challenges(leg.kind, hint) == Ok(leg.challenges)
    && leg.challenges != []
  }

  /** Every challenge of the leg is answered, and the fields its factors make of the answers are ones its
      form accepts, within the size limit. */
  predicate WellAnswered(laws: Laws, factors: Factors, leg: Leg) {
    && |leg.answers| == |leg.challenges|
    && (forall i :: 0 <= i < |leg.answers| ==> Passes(leg.challenges[i], leg.answers[i]))
    && factors.fields(leg.kind, leg.answers).Ok?
    && Acceptable(leg.form, factors.fields(leg.kind, leg.answers).value)
    && laws.fits(Requests.PairsOf(Filled(leg.form, factors.fields(leg.kind, leg.answers).value)))
  }

  /** The leg's page once `i` answers are in. */
  function Waiting(leg: Leg, i: nat): Pending
    requires i < |leg.challenges| && i <= |leg.answers|
  {
    Pending(leg.kind, leg.form, ExpectOf(leg.challenges[i]), leg.challenges[i + 1..], leg.answers[..i])
  }

  /** A page that is reached is presented: its first challenge is asked. */
  lemma PageAsks(laws: Laws, app: App, factors: Factors, w: World, url: Url, cause: Cause, leg: Leg)
      returns (after: World)
    requires w.flow.lifecycle.Active? && Punctual(laws, w.flow.deadline) && url.scheme == "https"
    requires Leads(laws, app, w.awaits, url, cause.Posted?, leg.hops) && |leg.hops| <= 5
    requires ServesPage(laws, factors, w.flow.loginHint, w.awaits + |leg.hops|,
                        LastOf(url, leg.hops), leg)
    ensures Visit(laws, app, factors, w, url, cause) == (after, Done(Ask(leg.challenges[0])))
    ensures after.flow == w.flow.(jar := after.flow.jar, pending := Some(Waiting(leg, 0)))
    ensures after.looks == w.looks && after.keys == w.keys
    ensures after.awaits == w.awaits + |leg.hops| + 1
  {
    hide FetchedOf, Send, Resolve, Leads, Extract, BodyTokens, Rejection, ExpectOf, SameOrigin;
    var last, n := LastOf(url, leg.hops), w.awaits + |leg.hops|;
    var o := laws.net(n).outcome;
    ResponsesExactly(laws, last, o.status, o.location, o.body);
    assert ReplyAt(laws, n, last) == Ok(Page(last, 200, o.body));
    FirstReplies(laws, app, w.awaits, url, cause.Posted?, leg.hops);
    SendReplies(laws, w, url, cause);
    var (sent, r) := Send(laws, w, url, cause);
    var arrived := FollowsAll(laws, app, factors, sent, w.awaits, url, cause.Posted?, 0, leg.hops);
    after := PagePrompts(laws, app, factors, arrived, last, o.body, cause.Posted? && leg.hops == [],
                         |leg.hops|, leg, n);
    assert leg.answers[..0] == [];
  }

  lemma FirstReplies(laws: Laws, app: App, n: nat, url: Url, posted: bool, targets: seq<Url>)
    requires Leads(laws, app, n, url, posted, targets)
    requires ReplyAt(laws, n + |targets|, LastOf(url, targets)).Ok?
    ensures ReplyAt(laws, n, url).Ok?
  {
    if targets != [] {
      var o := laws.net(n).outcome;
      ResponsesExactly(laws, url, o.status, o.location, o.body);
    }
  }

  lemma PagePrompts(laws: Laws, app: App, factors: Factors, w: World, url: Url, body: Bytes,
                    posted: bool, followed: nat, leg: Leg, n: nat)
      returns (after: World)
    requires w.flow.lifecycle.Active? && Punctual(laws, w.flow.deadline) && followed <= 5
    requires ServesPage(laws, factors, w.flow.loginHint, n, url, leg)
    requires laws.net(n).outcome.body == body
    ensures Resolve(laws, app, factors, w, Page(url, 200, body), posted, followed) ==
            (after, Done(Ask(leg.challenges[0])))
    ensures after.flow == w.flow.(pending := Some(Pending(
              leg.kind, leg.form, ExpectOf(leg.challenges[0]), leg.challenges[1..], [])))
    ensures after.looks == w.looks && after.keys == w.keys && after.awaits == w.awaits
  {
    hide Extract, BodyTokens, Rejection, ExpectOf, Redirected;
    after := Resolve(laws, app, factors, w, Page(url, 200, body), posted, followed).0;
    assert Turn(laws, app, factors, w, Page(url, 200, body), posted, followed).1 ==
        Stop(Done(Ask(leg.challenges[0])));
  }

  /** A passing answer that is not the page's last has the next challenge asked. */
  lemma AnswerAsks(laws: Laws, app: App, factors: Factors, w: World, leg: Leg, i: nat)
    requires w.flow.lifecycle.Active? && Punctual(laws, w.flow.deadline)
    requires w.flow.client == LoginClient(app) && WellAnswered(laws, factors, leg)
    requires i + 1 < |leg.challenges| && w.flow.pending == Some(Waiting(leg, i))
    ensures var after := Called(laws, w, Advance(app, factors, leg.answers[i]));
            && after.flow == w.flow.(pending := Some(Waiting(leg, i + 1)))
            && after.looks == w.looks && after.keys == w.keys && after.awaits == w.awaits
            && after.log == w.log + [Entered(Advance(app, factors, leg.answers[i])),
                                     Returned(Done(Ask(leg.challenges[i + 1])))]
  {
    hide LoginClient, Check, ExpectOf, PostPage, FirstPage, ExchangeCode, Acceptable;
    assert Passes(leg.challenges[i], leg.answers[i]);
    assert leg.answers[..i] + [leg.answers[i]] == leg.answers[..i + 1];
    assert leg.challenges[i + 1..][0] == leg.challenges[i + 1];
    assert leg.challenges[i + 1..][1..] == leg.challenges[i + 2..];
  }

  /** The page's last answer has its form posted, filled in with what the factors make of the answers. */
  lemma AnswerPosts(laws: Laws, app: App, factors: Factors, w: World, leg: Leg) returns (posting: World)
    requires w.flow.lifecycle.Active? && Punctual(laws, w.flow.deadline)
    requires w.flow.client == LoginClient(app) && WellAnswered(laws, factors, leg)
    requires leg.challenges != [] && factors.supports(leg.kind)
    requires w.flow.pending == Some(Waiting(leg, |leg.challenges| - 1))
    ensures posting.flow == w.flow.(pending := None)
    ensures posting.looks == w.looks && posting.keys == w.keys && posting.awaits == w.awaits
    ensures var fields := Filled(leg.form, factors.fields(leg.kind, leg.answers).value);
            var page := Pending(leg.kind, leg.form, ExpectOf(leg.challenges[|leg.challenges| - 1]), [],
                                leg.answers);
            Called(laws, w, Advance(app, factors, leg.answers[|leg.answers| - 1])) ==
            Guarded(laws, Visit(laws, app, factors, posting, leg.form.action, Posted(page, fields))).0
  {
    hide LoginClient, Check, ExpectOf, Visit, FirstPage, ExchangeCode, Guarded, Acceptable, Filled,
      Requests.PairsOf;
    var n := |leg.challenges| - 1;
    assert Passes(leg.challenges[n], leg.answers[n]);
    assert leg.answers[..n] + [leg.answers[n]] == leg.answers;
    assert leg.challenges[n + 1..] == [];
    var entered := Log(w, Entered(Advance(app, factors, leg.answers[n])));
    posting := Ticked(entered).(flow := w.flow.(pending := None));
    AcceptedIsFilled(leg.form, factors.fields(leg.kind, leg.answers).value);
  }

  lemma AcceptedIsFilled(form: Form, answers: seq<(string, string)>)
    requires Acceptable(form, answers)
    ensures Submitted(form, answers) == Ok(Filled(form, answers))
  {
    hide Acceptable, Filled;
  }

  /** From request `n` for a URL on, the server redirects up to five times and then to the callback, with
      the login's state and a code; not with 307 or 308 where that answers a post. */
  predicate ServesCode(laws: Laws, app: App, state: string, n: nat, url: Url, posted: bool,
                       finish: seq<Url>, code: string)
  {
    var last, o := LastOf(url, finish), laws.net(n + |finish|).outcome;
    && Leads(laws, app, n, url, posted, finish) && |finish| <= 5
    && o.Answered? && o.status in {301, 302, 303, 307, 308} && o.location.Some?
    && !(posted && finish == [] && (o.status == 307 || o.status == 308))
    && laws.join(last, o.location.value).Some?
    && var target := laws.join(last, o.location.value).value;
       SameEndpoint(target, Registered(laws, app)) && CodeIn(target.query, state) == Ok(code)
  }

  /** The callback that is reached completes the login with the tokens its code redeems to. */
  lemma CallbackCompletes(laws: Laws, app: App, factors: Factors, w: World, url: Url, cause: Cause,
                          finish: seq<Url>, code: string, t: Grants.Tokens)
    requires w.flow.lifecycle.Active? && Punctual(laws, w.flow.deadline) && url.scheme == "https"
    requires ServesCode(laws, app, w.flow.state, w.awaits, url, cause.Posted?, finish, code)
    requires RedeemsTo(laws, app, w.(awaits := w.awaits + |finish| + 1), code, t)
    ensures var (after, r) := Visit(laws, app, factors, w, url, cause);
            r == Done(Complete(t)) && after.flow.lifecycle.Finished? && Wiped(after.flow)
  {
    hide FetchedOf, Send, Leads, SameOrigin, SameEndpoint, CodeIn, RedeemsTo, CompleteAtCallback, Turn;
    var last, n := LastOf(url, finish), w.awaits + |finish|;
    var o := laws.net(n).outcome;
    var target := laws.join(last, o.location.value).value;
    ResponsesExactly(laws, last, o.status, o.location, o.body);
    FirstReplies(laws, app, w.awaits, url, cause.Posted?, finish);
    SendReplies(laws, w, url, cause);
    var (sent, r) := Send(laws, w, url, cause);
    var arrived := FollowsAll(laws, app, factors, sent, w.awaits, url, cause.Posted?, 0, finish);
    RedirectJudged(laws, app, factors, arrived, last, o.status, o.location, o.body, target,
                   cause.Posted? && finish == [], |finish|);
    CompletesExactly(laws, app, Ticked(arrived), target, t);
    SameRedemption(laws, app, w.(awaits := n + 1), Ticked(arrived), code, t);
  }

  /** What the server says from request `n` for a URL on: one page after another, each answered, and then
      the callback. */
  predicate Serves(laws: Laws, app: App, factors: Factors, hint: Option<string>, state: string, n: nat,
                   url: Url, posted: bool, legs: seq<Leg>, finish: seq<Url>, code: string)
    decreases |legs|
  {
    if legs == [] then ServesCode(laws, app, state, n, url, posted, finish, code)
    else
      var leg := legs[0];
      && Leads(laws, app, n, url, posted, leg.hops) && |leg.hops| <= 5
      && ServesPage(laws, factors, hint, n + |leg.hops|, LastOf(url, leg.hops), leg)
      && WellAnswered(laws, factors, leg)
      && Serves(laws, app, factors, hint, state, n + |leg.hops| + 1, leg.form.action, true, legs[1..],
                finish, code)
  }

  /** How many requests that takes, from `n` on. */
  function EndOf(n: nat, legs: seq<Leg>, finish: seq<Url>): nat
    decreases |legs|
  {
    if legs == [] then n + |finish| + 1 else EndOf(n + |legs[0].hops| + 1, legs[1..], finish)
  }

  function Advances(app: App, factors: Factors, answers: seq<Answer>): seq<Call> {
    seq(|answers|, i requires 0 <= i < |answers| => Advance(app, factors, answers[i]))
  }

  /** The calls that answer every page in turn. */
  function AnswerCalls(app: App, factors: Factors, legs: seq<Leg>): seq<Call> {
    if legs == [] then []
    else Advances(app, factors, legs[0].answers) + AnswerCalls(app, factors, legs[1..])
  }

  lemma {:induction false} RunSplit(laws: Laws, w: World, front: seq<Call>, back: seq<Call>)
    ensures Run(laws, w, front + back) == Run(laws, Run(laws, w, front), back)
    decreases |front|
  {
    hide Called;
    if front == [] {
      assert front + back == back;
    } else {
      RunSplit(laws, Called(laws, w, front[0]), front[1..], back);
      assert (front + back)[1..] == front[1..] + back;
    }
  }

  /** All but the last answer of a page, from the `i`th on, leave it waiting for the last. */
  lemma {:induction false} AnswersWait(laws: Laws, app: App, factors: Factors, w: World, leg: Leg, i: nat)
    requires w.flow.lifecycle.Active? && Punctual(laws, w.flow.deadline)
    requires w.flow.client == LoginClient(app) && WellAnswered(laws, factors, leg)
    requires i < |leg.challenges| && w.flow.pending == Some(Waiting(leg, i))
    ensures var last := |leg.answers| - 1;
            var after := Run(laws, w, Advances(app, factors, leg.answers[i..last]));
            && after.flow == w.flow.(pending := Some(Waiting(leg, last)))
            && after.looks == w.looks && after.keys == w.keys && after.awaits == w.awaits
    decreases |leg.challenges| - i
  {
    hide Called, Waiting, LoginClient;
    var last := |leg.answers| - 1;
    var calls := Advances(app, factors, leg.answers[i..last]);
    if i == last {
      assert calls == [];
    } else {
      assert calls[0] == Advance(app, factors, leg.answers[i]);
      assert calls[1..] == Advances(app, factors, leg.answers[i + 1..last]);
      AnswerAsks(laws, app, factors, w, leg, i);
      AnswersWait(laws, app, factors, Called(laws, w, calls[0]), leg, i + 1);
    }
  }

  /** All of a page's answers lead to the post of its form. */
  lemma AnswersPost(laws: Laws, app: App, factors: Factors, w: World, leg: Leg) returns (posting: World)
    requires w.flow.lifecycle.Active? && Punctual(laws, w.flow.deadline)
    requires w.flow.client == LoginClient(app) && WellAnswered(laws, factors, leg)
    requires leg.challenges != [] && factors.supports(leg.kind)
    requires w.flow.pending == Some(Waiting(leg, 0))
    ensures posting.flow == w.flow.(pending := None)
    ensures posting.looks == w.looks && posting.keys == w.keys && posting.awaits == w.awaits
    ensures exists cause: Cause :: cause.Posted? &&
              Run(laws, w, Advances(app, factors, leg.answers)) ==
              Guarded(laws, Visit(laws, app, factors, posting, leg.form.action, cause)).0
  {
    hide Called, Waiting, LoginClient, Visit, Guarded, Filled;
    var last := |leg.answers| - 1;
    AnswersWait(laws, app, factors, w, leg, 0);
    assert leg.answers[0..last] == leg.answers[..last];
    var waiting := Run(laws, w, Advances(app, factors, leg.answers[..last]));
    posting := AnswerPosts(laws, app, factors, waiting, leg);
    var final := [Advance(app, factors, leg.answers[last])];
    RunSplit(laws, w, Advances(app, factors, leg.answers[..last]), final);
    assert Advances(app, factors, leg.answers) == Advances(app, factors, leg.answers[..last]) + final;
    RunOne(laws, waiting, final[0]);
  }

  lemma RunOne(laws: Laws, w: World, call: Call)
    ensures Run(laws, w, [call]) == Called(laws, w, call)
  {
    hide Called;
    assert [call][1..] == [];
  }

  lemma {:induction false} LegsComplete(laws: Laws, app: App, factors: Factors, w: World, url: Url,
                                        cause: Cause, legs: seq<Leg>, finish: seq<Url>, code: string,
                                        t: Grants.Tokens)
    requires w.flow.lifecycle.Active? && Punctual(laws, w.flow.deadline) && url.scheme == "https"
    requires w.flow.client == LoginClient(app)
    requires Serves(laws, app, factors, w.flow.loginHint, w.flow.state, w.awaits, url, cause.Posted?,
                    legs, finish, code)
    requires RedeemsTo(laws, app, w.(awaits := EndOf(w.awaits, legs, finish)), code, t)
    ensures var step := Guarded(laws, Visit(laws, app, factors, w, url, cause)).0;
            Completed(Run(laws, step, AnswerCalls(app, factors, legs)), t)
    decreases |legs|
  {
    hide Visit, LoginClient, RedeemsTo, ServesCode, ServesPage, WellAnswered, Leads, Waiting;
    if legs == [] {
      CallbackCompletes(laws, app, factors, w, url, cause, finish, code, t);
    } else {
      var leg := legs[0];
      PageIsReal(laws, factors, w.flow.loginHint, w.awaits + |leg.hops|, LastOf(url, leg.hops), leg);
      var asked := PageAsks(laws, app, factors, w, url, cause, leg);
      var step := Log(asked, Returned(Done(Ask(leg.challenges[0]))));
      var posting := AnswersPost(laws, app, factors, step, leg);
      var post: Cause :| post.Posted? &&
        Run(laws, step, Advances(app, factors, leg.answers)) ==
        Guarded(laws, Visit(laws, app, factors, posting, leg.form.action, post)).0;
      RunSplit(laws, step, Advances(app, factors, leg.answers), AnswerCalls(app, factors, legs[1..]));
      SameRedemption(laws, app, w.(awaits := EndOf(w.awaits, legs, finish)),
                     posting.(awaits := EndOf(posting.awaits, legs[1..], finish)), code, t);
      LegsComplete(laws, app, factors, posting, leg.form.action, post, legs[1..], finish, code, t);
    }
  }

  /** A page that is served is one the factors answer, and posts over HTTPS. */
  lemma PageIsReal(laws: Laws, factors: Factors, hint: Option<string>, n: nat, url: Url, leg: Leg)
    requires ServesPage(laws, factors, hint, n, url, leg)
    ensures leg.form.action.scheme == "https" && leg.challenges != [] && factors.supports(leg.kind)
  {
    hide Extract, BodyTokens;
    ExtractedForm(url, BodyTokens(laws, laws.net(n).outcome.body), laws.join);
  }

  /** The login is over, nothing of it is left, and the last it said was that it completed with these
      tokens. */
  predicate Completed(w: World, t: Grants.Tokens) {
    && w.flow.lifecycle.Finished? && Wiped(w.flow)
    && w.log != [] && w.log[|w.log| - 1] == Returned(Done(Complete(t)))
  }

  /** A login that is served completes. Its secrets, scopes and endpoint make an authorization URL; the
      server answers that request, and then each posted form, with a page the user's factors know, or
      redirects there at most five times; every challenge of every page is answered; at the end the
      server redirects to the callback with the login's state and a code that redeems to tokens; and
      time does not run out. Then the calls that begin and answer it end in those tokens, however many
      pages and challenges there were. */
  lemma ServedLoginCompletes(laws: Laws, opening: Opening, app: App, factors: Factors, start: Start,
                             url: Url, legs: seq<Leg>, finish: seq<Url>, code: string, t: Grants.Tokens)
    requires Punctual(laws, laws.clock(0) + opening.limit)
    requires Endpoints.AuthorizationUrl(
               app.authorization,
               Endpoints.Request(app.clientId, app.redirectText, start.loginHint, start.scopes,
                                 opening.verifier, opening.state, opening.nonce),
               laws.digest) == Ok(url)
    requires url.scheme == "https"
    requires Serves(laws, app, factors, start.loginHint, opening.state, 0, url, false, legs, finish, code)
    requires var made := NewWorld(laws, opening.limit, opening.verifier, opening.state, opening.nonce,
                                   opening.keys);
             RedeemsTo(laws, app, made.(awaits := EndOf(0, legs, finish)), code, t)
    ensures Completed(Played(laws, opening,
                             [Begin(app, factors, start)] + AnswerCalls(app, factors, legs)), t)
  {
    hide Endpoints.AuthorizationUrl, Serves, RedeemsTo, Visit, Guarded, LoginClient, AnswerPage;
    var made := NewWorld(laws, opening.limit, opening.verifier, opening.state, opening.nonce,
                          opening.keys);
    var begin := Begin(app, factors, start);
    var calls := [begin] + AnswerCalls(app, factors, legs);
    var named := Ticked(Log(made, Entered(begin)))
                 .(flow := made.flow.(client := LoginClient(app), loginHint := start.loginHint));
    assert Called(laws, made, begin) == Guarded(laws, Visit(laws, app, factors, named, url, Began)).0;
    SameRedemption(laws, app, made.(awaits := EndOf(0, legs, finish)),
                   named.(awaits := EndOf(0, legs, finish)), code, t);
    LegsComplete(laws, app, factors, named, url, Began, legs, finish, code, t);
    assert calls[0] == begin && calls[1..] == AnswerCalls(app, factors, legs);
  }
}
