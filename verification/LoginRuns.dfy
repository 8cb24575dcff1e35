/** Safety of whole logins: any caller, any server, any clock, any dropped request. */
module LoginRuns {
  import opened Common
  import opened Urls
  import Challenges
  import opened CookieJar
  import opened Login
  import opened LoginProofs
  import opened LoginBounds
  import opened Surroundings
  import Forms
  import Pages
  import Requests

  /** Every login a caller begins on this flow is its owner's, at the same origin. */
  ghost predicate AtHome(calls: seq<Call>, owner: App) {
    forall call <- calls :: call.Begin? ==>
      OriginOf(call.app.authorization) == OriginOf(owner.authorization) && SameClient(call.app, owner)
  }

  /** A new flow, and everything done with it. */
  function Played(laws: Laws, opening: Opening, calls: seq<Call>): World
  {
    Run(laws, NewWorld(laws, opening.limit, opening.verifier, opening.state, opening.nonce,
                 opening.keys), calls)
  }

  lemma PlayedRested(laws: Laws, opening: Opening, calls: seq<Call>, owner: App)
    requires AtHome(calls, owner)
    ensures Rested(Birth(laws, owner, opening), Played(laws, opening, calls))
  {
    hide Run;
    var start := NewWorld(laws, opening.limit, opening.verifier, opening.state, opening.nonce,
                 opening.keys);
    RunKeeps(Birth(laws, owner, opening), start, calls);
  }

  // From the onlooker's memory back to the events.

  lemma {:induction false} EventAt(b: Birth, log: seq<Event>, k: nat)
    requires Watched(b, log).ok && k < |log|
    ensures EventOk(b, Watched(b, log[..k]), log[k])
  {
    hide EventOk;
    var front := log[..|log| - 1];
    if k == |front| {
      assert log[..k] == front;
    } else {
      EventAt(b, front, k);
      assert front[..k] == log[..k];
    }
  }

  /** What the onlooker has once seen stays seen. */
  lemma {:induction false} MemoryGrows(b: Birth, log: seq<Event>, k: nat)
    requires k <= |log|
    ensures Watched(b, log[..k]).over ==> Watched(b, log).over
    ensures Watched(b, log[..k]).completed ==> Watched(b, log).completed
  {
    hide EventOk;
    if k == |log| {
      assert log[..k] == log;
    } else {
      var front := log[..|log| - 1];
      MemoryGrows(b, front, k);
      assert front[..k] == log[..k];
    }
  }

  lemma AfterEvent(b: Birth, log: seq<Event>, k: nat, j: nat)
    requires k < j <= |log|
    ensures var m, n := Watched(b, log[..k]), Watched(b, log[..j]);
            && ((Posting(m) && AsksToRepeat(log[k])) || log[k].CodeAsked? ==> n.over)
            && (IsComplete(log[k]) ==> n.completed)
  {
    hide EventOk, AsksToRepeat;
    assert log[..k + 1] == log[..k] + [log[k]];
    Appended(b, log[..k], log[k]);
    assert log[..j][..k + 1] == log[..k + 1];
    MemoryGrows(b, log[..j], k + 1);
  }

  /** The last event an onlooker remembers is the one before. */
  lemma LastIsBefore(b: Birth, log: seq<Event>, k: nat)
    requires k <= |log|
    ensures Watched(b, log[..k]).last == if k == 0 then None else Some(log[k - 1])
  {
    hide EventOk;
    if k > 0 {
      assert log[..k] == log[..k - 1] + [log[k - 1]];
      Appended(b, log[..k - 1], log[k - 1]);
    }
  }

  function Responses(log: seq<Event>): seq<Response> {
    if log == [] then []
    else
      var last := log[|log| - 1];
      Responses(log[..|log| - 1]) + if last.PageCame? then [last.response] else []
  }

  lemma {:induction false} JarIsHistory(b: Birth, log: seq<Event>)
    ensures Watched(b, log).jar == After(Responses(log))
  {
    hide EventOk, Replaced;
    if log != [] {
      var front, last := log[..|log| - 1], log[|log| - 1];
      JarIsHistory(b, front);
      if last.PageCame? {
        assert Responses(log)[..|Responses(log)| - 1] == Responses(front);
      } else {
        assert Responses(log) == Responses(front);
      }
    }
  }

  /** How many requests a log holds. */
  function RequestCount(log: seq<Event>): nat {
    if log == [] then 0
    else RequestCount(log[..|log| - 1]) + if IsRequest(log[|log| - 1]) then 1 else 0
  }

  /** The user of the last begin. */
  function HintIn(log: seq<Event>): Option<string> {
    if log == [] then None
    else
      var last := log[|log| - 1];
      if last.Entered? && last.call.Begin? then last.call.start.loginHint else HintIn(log[..|log| - 1])
  }

  /** The answers that were given, in order. */
  function GivenIn(log: seq<Event>): seq<Challenges.Answer> {
    if log == [] then []
    else
      var last := log[|log| - 1];
      GivenIn(log[..|log| - 1])
      + if last.Entered? && last.call.Advance? then [last.call.answer] else []
  }

  lemma {:induction false} MemoryCounts(b: Birth, log: seq<Event>)
    ensures Watched(b, log).awaits == RequestCount(log) && Watched(b, log).hint == HintIn(log)
  {
    hide EventOk, Replaced;
    if log != [] {
      MemoryCounts(b, log[..|log| - 1]);
    }
  }

  /** The page an onlooker remembers is the last presented, and the answers are those given since. */
  lemma {:induction false} PageIsLast(b: Birth, log: seq<Event>) returns (k: nat)
    requires Watched(b, log).page.Some?
    ensures k < |log| && log[k] == Watched(b, log).page.value && log[k].Presented?
    ensures forall j :: k < j < |log| ==> !log[j].Presented?
    ensures Watched(b, log).given == GivenIn(log[k + 1..])
  {
    hide EventOk, Replaced, GivenIn;
    var front, last := log[..|log| - 1], log[|log| - 1];
    if last.Presented? {
      k := |log| - 1;
      NoneGiven();
      assert log[k + 1..] == [];
    } else {
      k := PageIsLast(b, front);
      assert log == front + [last];
      assert log[k + 1..] == front[k + 1..] + [last];
      GivenNext(front[k + 1..], last);
    }
  }

  lemma NoneGiven()
    ensures GivenIn([]) == []
  {
  }

  lemma GivenNext(log: seq<Event>, e: Event)
    ensures GivenIn(log + [e]) ==
            GivenIn(log) + if e.Entered? && e.call.Advance? then [e.call.answer] else []
  {
    assert (log + [e])[..|log|] == log;
  }

  /** The call at `c` is the last one before `k`. */
  predicate EnteredLast(log: seq<Event>, c: nat, k: nat) {
    c < k <= |log| && log[c].Entered? && forall j :: c < j < k ==> !log[j].Entered?
  }

  /** The call an onlooker remembers is the last one entered. */
  lemma {:induction false} CallIsLast(b: Birth, log: seq<Event>, k: nat) returns (c: nat)
    requires k <= |log| && Watched(b, log[..k]).call.Some?
    ensures EnteredLast(log, c, k) && Some(log[c].call) == Watched(b, log[..k]).call
  {
    hide EventOk, Replaced;
    assert log[..k] == log[..k - 1] + [log[k - 1]];
    Appended(b, log[..k - 1], log[k - 1]);
    if log[k - 1].Entered? {
      c := k - 1;
    } else {
      c := CallIsLast(b, log, k - 1);
    }
  }

  lemma {:induction false} EnteredIsCall(log: seq<Event>, c: nat)
    requires c < |log| && log[c].Entered?
    ensures log[c].call in CallsIn(log)
  {
    if c < |log| - 1 {
      EnteredIsCall(log[..|log| - 1], c);
    }
  }

  // The theorems.

  predicate AsksAnything(e: Event) {
    e.PageAsked? || e.CodeAsked? || IsChallenge(e)
  }

  /** A code is redeemed at most once; no page request, form post, code request or challenge
      follows; and the login completes at most once, only after a redemption. */
  lemma OneRedemption(laws: Laws, opening: Opening, calls: seq<Call>, owner: App)
    requires AtHome(calls, owner)
    ensures var log := Played(laws, opening, calls).log;
            && (forall i, j :: 0 <= i < j < |log| && log[i].CodeAsked? ==> !AsksAnything(log[j]))
            && (forall i, j :: 0 <= i < j < |log| && IsComplete(log[i]) ==> !IsComplete(log[j]))
            && (forall j :: 0 <= j < |log| && IsComplete(log[j]) ==>
                 exists i :: 0 <= i < j && log[i].CodeAsked?)
            && (forall i :: 0 <= i < |log| && log[i].CodeAsked? ==> log[i].verifier == opening.verifier)
  {
    hide Played, Completes, CauseOk, CodeOk;
    var b := Birth(laws, owner, opening);
    PlayedRested(laws, opening, calls, owner);
    var log := Played(laws, opening, calls).log;
    forall i, j | 0 <= i < j < |log|
      ensures log[i].CodeAsked? ==> !AsksAnything(log[j])
      ensures IsComplete(log[i]) ==> !IsComplete(log[j])
    {
      EventAt(b, log, j);
      AfterEvent(b, log, i, j);
    }
    forall j | 0 <= j < |log| && IsComplete(log[j])
      ensures exists i :: 0 <= i < j && log[i].CodeAsked?
    {
      var i := CompletedAfter(b, log, j);
      assert log[i].CodeAsked?;
    }
    forall i | 0 <= i < |log| && log[i].CodeAsked? ensures log[i].verifier == opening.verifier {
      EventAt(b, log, i);
    }
  }

  /** A completion comes right after the code request, or after a request for keys right after it. */
  predicate CompletesAfter(b: Birth, log: seq<Event>, j: nat, k: nat)
    requires k < |log| && IsComplete(log[k])
  {
    && j < k && log[j].CodeAsked?
    && (k == j + 1 || (k == j + 2 && log[j + 1] == KeysAsked(log[j].n + 1)))
    && Earned(b, log[j].n, k == j + 2, log[k].reply.value.tokens)
  }

  lemma CompletedAfter(b: Birth, log: seq<Event>, k: nat) returns (j: nat)
    requires Watched(b, log).ok && k < |log| && IsComplete(log[k])
    ensures CompletesAfter(b, log, j, k)
  {
    hide Earned, Watched, CauseOk, CodeOk;
    EventAt(b, log, k);
    LastIsBefore(b, log, k);
    if log[k - 1].KeysAsked? {
      EventAt(b, log, k - 1);
      LastIsBefore(b, log, k - 1);
      j := k - 2;
    } else {
      j := k - 1;
    }
  }

  /** A login completes only right after it asked for its code's tokens in one request, or for keys in
      the next. Its tokens are those of the first one's reply, recorded for its own client; keys were
      asked for exactly when the cache did not hold the ID token's; and the ID token was verified, at
      the time of that moment, for the client, its issuer and this login's nonce, with the keys the
      login opened with, another login's, or those in the reply. */
  lemma CompletionIsVouched(laws: Laws, opening: Opening, calls: seq<Call>, owner: App, k: nat)
      returns (j: nat)
    requires AtHome(calls, owner)
    requires var log := Played(laws, opening, calls).log;
             k < |log| && IsComplete(log[k])
    ensures var log := Played(laws, opening, calls).log;
            && CompletesAfter(Birth(laws, owner, opening), log, j, k)
            && log[j].n == RequestCount(log[..j])
  {
    hide Played, Earned, Watched, CauseOk, CodeOk;
    PlayedRested(laws, opening, calls, owner);
    var b, log := Birth(laws, owner, opening), Played(laws, opening, calls).log;
    j := CompletedAfter(b, log, k);
    EventAt(b, log, j);
    MemoryCounts(b, log[..j]);
  }

  /** Unless a caller redeems codes itself, every code a login asks tokens for came in the response
      just before: a redirect to its owner's callback that names this login's state once, this code
      once, and no error. */
  lemma CodeFromCallback(laws: Laws, opening: Opening, calls: seq<Call>, owner: App, k: nat)
    requires AtHome(calls, owner) && forall call <- calls :: !call.Redeeming?
    requires var log := Played(laws, opening, calls).log;
             k < |log| && log[k].CodeAsked?
    ensures var log := Played(laws, opening, calls).log;
            && k > 0 && Target(laws, log[k - 1]).Some?
            && var target := Target(laws, log[k - 1]).value;
               && SameEndpoint(target, Registered(laws, owner))
               && opening.state != "" && Only(target.query, "state", opening.state)
               && log[k].code != "" && Only(target.query, "code", log[k].code)
               && Missing(target.query, "error")
  {
    hide Played, Watched, SameEndpoint, Only, Missing, CodeIn, Run, Target;
    PlayedRested(laws, opening, calls, owner);
    var b, log := Birth(laws, owner, opening), Played(laws, opening, calls).log;
    EventAt(b, log, k);
    LastIsBefore(b, log, k);
    if Watched(b, log[..k]).call.Some? {
      var c := CallIsLast(b, log, k);
      EnteredIsCall(log, c);
      PlayedCalls(laws, opening, calls);
    }
    var target := Target(laws, log[k - 1]).value;
    CallbackAccepts(target.query, opening.state, log[k].code);
  }

  lemma PlayedCalls(laws: Laws, opening: Opening, calls: seq<Call>)
    ensures CallsIn(Played(laws, opening, calls).log) == calls
  {
    hide Run;
    CallsAreLogged(laws, NewWorld(laws, opening.limit, opening.verifier, opening.state, opening.nonce,
                                  opening.keys), calls);
  }

  /** Every response of a run is the server's reply to the page request just before it. */
  lemma ResponseIsReply(laws: Laws, opening: Opening, calls: seq<Call>, owner: App, k: nat)
    requires AtHome(calls, owner)
    requires var log := Played(laws, opening, calls).log;
             k < |log| && log[k].PageCame?
    ensures var log := Played(laws, opening, calls).log;
            k > 0 && Replies(laws, log[k - 1], log[k]) && log[k - 1].n == RequestCount(log[..k - 1])
  {
    hide Played, Watched, CauseOk, Replies;
    PlayedRested(laws, opening, calls, owner);
    var b, log := Birth(laws, owner, opening), Played(laws, opening, calls).log;
    EventAt(b, log, k);
    LastIsBefore(b, log, k);
    assert log[k - 1].PageAsked? by { RepliesToPage(laws, log[k - 1], log[k]); }
    EventAt(b, log, k - 1);
    MemoryCounts(b, log[..k - 1]);
  }

  lemma RepliesToPage(laws: Laws, asked: Event, came: Event)
    requires Replies(laws, asked, came)
    ensures asked.PageAsked?
  {
  }

  /** Every page request goes over HTTPS to the origin the login began at, with exactly the
      unexpired cookies that origin's last response left; and one that follows a redirect goes where
      the response just before points, which is never the owner's callback. */
  lemma Confined(laws: Laws, opening: Opening, calls: seq<Call>, owner: App, k: nat)
    requires AtHome(calls, owner)
    requires var log := Played(laws, opening, calls).log;
             k < |log| && log[k].PageAsked?
    ensures var log := Played(laws, opening, calls).log;
            var asked := log[k];
            && asked.url.scheme == "https" && OriginOf(asked.url) == OriginOf(owner.authorization)
            && asked.n == RequestCount(log[..k]) && asked.at == laws.net(asked.n).sentAt
            && asked.cookies == LinesAt(After(Responses(log[..k])), asked.url, asked.at)
            && (asked.cause.Followed? ==>
                 && k > 0 && Target(laws, log[k - 1]) == Some(asked.url)
                 && !SameEndpoint(asked.url, Registered(laws, owner)))
  {
    hide Played, Watched, SameEndpoint, Target;
    PlayedRested(laws, opening, calls, owner);
    var b, log := Birth(laws, owner, opening), Played(laws, opening, calls).log;
    EventAt(b, log, k);
    LastIsBefore(b, log, k);
    JarIsHistory(b, log[..k]);
    MemoryCounts(b, log[..k]);
  }

  /** The first page of a login is asked for with the authorization URL of the begin that is under
      way: its own client, user and scopes, and this flow's verifier, state and nonce. */
  lemma BeganAsOpened(laws: Laws, opening: Opening, calls: seq<Call>, owner: App, k: nat)
      returns (c: nat)
    requires AtHome(calls, owner)
    requires var log := Played(laws, opening, calls).log;
             k < |log| && log[k].PageAsked? && log[k].cause.Began?
    ensures var log := Played(laws, opening, calls).log;
            && EnteredLast(log, c, k)
            && Opens(Birth(laws, owner, opening), log[c].call, log[k].url)
  {
    hide Played, Watched, Opens, EnteredLast;
    PlayedRested(laws, opening, calls, owner);
    var b, log := Birth(laws, owner, opening), Played(laws, opening, calls).log;
    EventAt(b, log, k);
    c := CallIsLast(b, log, k);
    assert log[c].Entered? by { EnteredThere(log, c, k); }
  }

  lemma EnteredThere(log: seq<Event>, c: nat, k: nat)
    requires EnteredLast(log, c, k)
    ensures c < k <= |log| && log[c].Entered?
  {
  }

  /** A page is presented only as the response just before it, with status 200, extracts: its kind and
      its form, which posts over HTTPS to the login's origin, only fields its kind of page may post.
      What it asks is what the factors of the call under way ask for such a page and the user of the
      last begin, and that is something. */
  lemma PresentedCame(laws: Laws, opening: Opening, calls: seq<Call>, owner: App, k: nat)
      returns (c: nat)
    requires AtHome(calls, owner)
    requires var log := Played(laws, opening, calls).log;
             k < |log| && log[k].Presented?
    ensures var log := Played(laws, opening, calls).log;
            && k > 0 && Shown(laws, log[k - 1], log[k].kind, log[k].form)
            && FormOk(Birth(laws, owner, opening), log[k].kind, log[k].form)
            && EnteredLast(log, c, k) && StepFactors(Some(log[c].call)).Some?
            && StepFactors(Some(log[c].call)).value.challenges(log[k].kind, HintIn(log[..k]))
                 == Ok(log[k].challenges)
            && log[k].challenges != []
  {
    hide Played, Watched, Shown, FormOk, EnteredLast;
    PlayedRested(laws, opening, calls, owner);
    var b, log := Birth(laws, owner, opening), Played(laws, opening, calls).log;
    EventAt(b, log, k);
    LastIsBefore(b, log, k);
    MemoryCounts(b, log[..k]);
    c := CallIsLast(b, log, k);
    EnteredThere(log, c, k);
  }

  /** A step asks only for the first challenge of the page last presented that the answers given since
      leave open. */
  lemma AsksInOrder(laws: Laws, opening: Opening, calls: seq<Call>, owner: App, k: nat)
      returns (shown: nat)
    requires AtHome(calls, owner)
    requires var log := Played(laws, opening, calls).log;
             k < |log| && log[k].Returned? && IsChallenge(log[k])
    ensures var log := Played(laws, opening, calls).log;
            && shown < k && log[shown].Presented?
            && (forall j :: shown < j < k ==> !log[j].Presented?)
            && var answered := |GivenIn(log[shown + 1..k])|;
               && answered < |log[shown].challenges|
               && log[k].reply.value.challenge == log[shown].challenges[answered]
  {
    hide Played, Watched, GivenIn, Completes, Rejects;
    PlayedRested(laws, opening, calls, owner);
    var b, log := Birth(laws, owner, opening), Played(laws, opening, calls).log;
    EventAt(b, log, k);
    shown := PageIsLast(b, log[..k]);
    assert forall j :: 0 <= j < k ==> log[..k][j] == log[j];
    assert log[..k][shown + 1..] == log[shown + 1..k];
  }

  /** A login is reported as rejected only when the page that came just before rejects it, and for
      that page's reason. */
  lemma RejectedAsShown(laws: Laws, opening: Opening, calls: seq<Call>, owner: App, k: nat)
    requires AtHome(calls, owner)
    requires var log := Played(laws, opening, calls).log;
             k < |log| && log[k].Returned? && log[k].reply.Done? && log[k].reply.value.Rejected?
    ensures var log := Played(laws, opening, calls).log;
            k > 0 && Rejects(laws, log[k - 1], log[k].reply.value.reason)
  {
    hide Played, Watched, Rejects;
    PlayedRested(laws, opening, calls, owner);
    var b, log := Birth(laws, owner, opening), Played(laws, opening, calls).log;
    EventAt(b, log, k);
    LastIsBefore(b, log, k);
  }

  /** A form is posted only to its own action, within the size limit, and only after the page last
      presented had all its challenges answered: by the answers given since then, all of them and in
      order, each of which passed. What is posted is the form, filled in with the fields that the
      factors of the call under way give for those answers. */
  lemma PostsAreAnswered(laws: Laws, opening: Opening, calls: seq<Call>, owner: App, k: nat)
      returns (shown: nat, c: nat)
    requires AtHome(calls, owner)
    requires var log := Played(laws, opening, calls).log;
             k < |log| && IsPost(log[k])
    ensures var log := Played(laws, opening, calls).log;
            var page := log[k].cause.page;
            && shown < k && log[shown].Presented?
            && (forall j :: shown < j < k ==> !log[j].Presented?)
            && log[shown].kind == page.kind && log[shown].form == page.form
            && page.answers == GivenIn(log[shown + 1..k])
            && |page.answers| == |log[shown].challenges|
            && PrefixPasses(log[shown].challenges, page.answers)
            && EnteredLast(log, c, k) && StepFactors(Some(log[c].call)).Some?
            && Fills(StepFactors(Some(log[c].call)).value, page, log[k].cause.fields)
            && log[k].url == page.form.action
            && laws.fits(Requests.PairsOf(log[k].cause.fields))
  {
    hide Played, PrefixPasses, Fills, Watched, EnteredLast, GivenIn;
    PlayedRested(laws, opening, calls, owner);
    var b, log := Birth(laws, owner, opening), Played(laws, opening, calls).log;
    EventAt(b, log, k);
    shown := PageIsLast(b, log[..k]);
    assert forall j :: 0 <= j < k ==> log[..k][j] == log[j];
    assert log[..k][shown + 1..] == log[shown + 1..k];
    c := CallIsLast(b, log, k);
    EnteredThere(log, c, k);
  }

  lemma FilledIsAllowed(factors: Factors, page: Pending, fields: seq<(string, string)>, i: nat)
    requires Forms.PostsOnly(page.form, page.kind) && Forms.SelfConsistent(page.form)
    requires Fills(factors, page, fields) && i < |fields|
    ensures fields[i].0 in if page.kind.OneTimeCode? then Forms.OTP_POSTED else Forms.LOGIN_POSTED
    ensures fields[i].0 == "selectedCredentialId" ==> fields[i].1 in page.form.devices
  {
    var answers := factors.fields(page.kind, page.answers).value;
    Forms.AnswerOrigin(answers, page.form.fields[i].0, page.form.fields[i].1);
  }

  /** Over any run, every field a login posts is one its kind of page may post, and every chosen
      device is one the page offered. */
  lemma PostsAreAllowed(laws: Laws, opening: Opening, calls: seq<Call>, owner: App, k: nat, i: nat)
    requires AtHome(calls, owner)
    requires var log := Played(laws, opening, calls).log;
             k < |log| && IsPost(log[k]) && i < |log[k].cause.fields|
    ensures var (name, value) := Played(laws, opening, calls).log[k].cause.fields[i];
            var page := Played(laws, opening, calls).log[k].cause.page;
            && (name in if page.kind.OneTimeCode? then Forms.OTP_POSTED else Forms.LOGIN_POSTED)
            && (name == "selectedCredentialId" ==> value in page.form.devices)
  {
    hide Played, FormOk, Fills, PrefixPasses, Forms.PostsOnly, Forms.SelfConsistent, EnteredLast, Shown;
    var shown, c := PostsAreAnswered(laws, opening, calls, owner, k);
    var _ := PresentedCame(laws, opening, calls, owner, shown);
    var log := Played(laws, opening, calls).log;
    var event := log[k];
    EnteredThere(log, c, k);
    FormIsAllowed(Birth(laws, owner, opening), event.cause.page.kind, event.cause.page.form);
    FilledIsAllowed(StepFactors(Some(log[c].call)).value, event.cause.page, event.cause.fields, i);
  }

  /** With the program's own form limit, no body a login posts is over it. */
  lemma PostsAreBounded(laws: Laws, opening: Opening, calls: seq<Call>, owner: App, k: nat)
    requires AtHome(calls, owner) && RealForms(laws)
    requires var log := Played(laws, opening, calls).log;
             k < |log| && IsPost(log[k])
    ensures var fields := Played(laws, opening, calls).log[k].cause.fields;
            |Requests.FormBody(Requests.PairsOf(fields))| <= 1024 * 1024
  {
    hide Played, Fills, PrefixPasses, Requests.FormBody, Requests.PairsOf, EnteredLast;
    var _, _ := PostsAreAnswered(laws, opening, calls, owner, k);
    Requests.BodyFits(Requests.PairsOf(Played(laws, opening, calls).log[k].cause.fields));
  }

  lemma FormIsAllowed(b: Birth, kind: Pages.PageKind, form: Forms.Form)
    requires FormOk(b, kind, form)
    ensures Forms.PostsOnly(form, kind) && Forms.SelfConsistent(form)
  {
  }

  /** A 307 or 308 that answers a form post ends the login, even at the callback: it is not active
      any more, nothing more is asked, and it never completes. */
  lemma RepeatEndsLogin(laws: Laws, opening: Opening, calls: seq<Call>, owner: App, k: nat)
    requires AtHome(calls, owner)
    requires var log := Played(laws, opening, calls).log;
             && k + 1 < |log| && IsPost(log[k]) && log[k + 1].PageCame?
             && (log[k + 1].status == 307 || log[k + 1].status == 308)
    ensures var w := Played(laws, opening, calls);
            && !w.flow.lifecycle.Active?
            && forall j :: k + 1 < j < |w.log| ==> !AsksAnything(w.log[j]) && !IsComplete(w.log[j])
  {
    hide Played, CompletesAfter, CauseOk;
    PlayedRested(laws, opening, calls, owner);
    var b, log := Birth(laws, owner, opening), Played(laws, opening, calls).log;
    LastIsBefore(b, log, k + 1);
    AfterEvent(b, log, k + 1, |log|);
    assert log[..|log|] == log;
    forall j | k + 1 < j < |log| ensures !AsksAnything(log[j]) && !IsComplete(log[j]) {
      AfterEvent(b, log, k + 1, j);
      EventAt(b, log, j);
      if IsComplete(log[j]) {
        RepeatNeverCompletes(b, log, k, j);
      }
    }
  }

  /** Where a post was answered so, no code was asked for before or after. */
  lemma RepeatNeverCompletes(b: Birth, log: seq<Event>, k: nat, j: nat)
    requires Watched(b, log).ok && k + 1 < j < |log|
    requires IsPost(log[k]) && AsksToRepeat(log[k + 1])
    ensures !IsComplete(log[j])
  {
    hide Watched, Earned, CauseOk, CodeOk;
    if IsComplete(log[j]) {
      var i := CompletedAfter(b, log, j);
      EventAt(b, log, i);
      LastIsBefore(b, log, k + 1);
      AfterEvent(b, log, k + 1, i);
    }
  }

  /** A login that is not active holds no cookies, no page and no secrets, and a login that has
      redeemed or completed is not active. */
  lemma EndedIsWiped(laws: Laws, opening: Opening, calls: seq<Call>, owner: App)
    requires AtHome(calls, owner)
    ensures var w := Played(laws, opening, calls);
            && (!w.flow.lifecycle.Active? ==> Wiped(w.flow))
            && ((exists e <- w.log :: e.CodeAsked? || IsComplete(e)) ==> !w.flow.lifecycle.Active?)
  {
    hide Played;
    PlayedRested(laws, opening, calls, owner);
    var b, w := Birth(laws, owner, opening), Played(laws, opening, calls);
    forall i | 0 <= i < |w.log| && (w.log[i].CodeAsked? || IsComplete(w.log[i]))
      ensures !w.flow.lifecycle.Active?
    {
      AfterEvent(b, w.log, i, |w.log|);
      assert w.log[..|w.log|] == w.log;
    }
  }

  /** In every reachable state the waiting page splits the challenge list it was presented with:
      the answers given since then, all of which passed, in order; then the awaited challenge; then
      the queue. */
  lemma PendingSplits(laws: Laws, opening: Opening, calls: seq<Call>, owner: App)
      returns (shown: nat)
    requires AtHome(calls, owner) && Played(laws, opening, calls).flow.pending.Some?
    ensures var w := Played(laws, opening, calls);
            && shown < |w.log| && Shows(w.log[shown], w.flow.pending.value)
            && w.flow.pending.value.answers == GivenIn(w.log[shown + 1..])
            && forall j :: shown < j < |w.log| ==> !w.log[j].Presented?
  {
    hide Played, Shows;
    PlayedRested(laws, opening, calls, owner);
    shown := PageIsLast(Birth(laws, owner, opening),
                        Played(laws, opening, calls).log);
  }

  // The callback's parameters.

  /** Exactly one parameter has this name, and this is its value. */
  predicate Only(query: seq<(string, string)>, name: string, value: string) {
    exists i :: 0 <= i < |query| && query[i] == (name, value)
      && forall j :: 0 <= j < |query| && query[j].0 == name ==> j == i
  }

  predicate Missing(query: seq<(string, string)>, name: string) {
    forall i :: 0 <= i < |query| ==> query[i].0 != name
  }

  lemma {:induction false} NoValues(query: seq<(string, string)>, name: string)
    ensures Forms.ValuesOf(query, name) == [] <==> Missing(query, name)
  {
    if query != [] {
      NoValues(query[1..], name);
      assert Missing(query, name) <==> query[0].0 != name && Missing(query[1..], name) by {
        assert forall i :: 0 < i < |query| ==> query[i] == query[1..][i - 1];
      }
    }
  }

  lemma OnlyFirst(query: seq<(string, string)>, name: string, value: string)
    requires query != [] && query[0].0 == name
    ensures Only(query, name, value) <==> query[0].1 == value && Missing(query[1..], name)
  {
    assert forall i :: 0 < i < |query| ==> query[i] == query[1..][i - 1];
    if Missing(query[1..], name) && query[0].1 == value {
      assert query[0] == (name, value);
    }
  }

  lemma OnlyLater(query: seq<(string, string)>, name: string, value: string)
    requires query != [] && query[0].0 != name
    ensures Only(query, name, value) <==> Only(query[1..], name, value)
  {
    var rest := query[1..];
    assert forall i :: 0 < i < |query| ==> query[i] == rest[i - 1];
    if Only(rest, name, value) {
      var i :| 0 <= i < |rest| && rest[i] == (name, value)
        && forall j :: 0 <= j < |rest| && rest[j].0 == name ==> j == i;
      assert query[i + 1] == (name, value);
    }
    if Only(query, name, value) {
      var i :| 0 <= i < |query| && query[i] == (name, value)
        && forall j :: 0 <= j < |query| && query[j].0 == name ==> j == i;
      assert rest[i - 1] == (name, value);
      assert forall j :: 0 <= j < |rest| && rest[j].0 == name ==> query[j + 1].0 == name;
    }
  }

  lemma {:induction false} OneValue(query: seq<(string, string)>, name: string, value: string)
    ensures Forms.ValuesOf(query, name) == [value] <==> Only(query, name, value)
  {
    if query != [] {
      var rest := query[1..];
      if query[0].0 == name {
        hide Only, Missing;
        NoValues(rest, name);
        OnlyFirst(query, name, value);
        assert Forms.ValuesOf(query, name) == [query[0].1] + Forms.ValuesOf(rest, name);
        assert Forms.ValuesOf(rest, name) != [] ==> |Forms.ValuesOf(query, name)| > 1;
        assert Forms.ValuesOf(query, name)[0] == query[0].1;
      } else {
        hide Only;
        OneValue(rest, name, value);
        OnlyLater(query, name, value);
      }
    }
  }

  /** A callback yields a code exactly when it names the login's own state once, one code, and no
      error; any other callback is refused. */
  lemma CallbackAccepts(query: seq<(string, string)>, state: string, code: string)
    ensures CodeIn(query, state) == Ok(code) <==>
            && code != "" && state != ""
            && Only(query, "code", code) && Only(query, "state", state) && Missing(query, "error")
  {
    hide Only, Missing;
    OneValue(query, "code", code);
    OneValue(query, "state", state);
    NoValues(query, "error");
    var codes, states := Forms.ValuesOf(query, "code"), Forms.ValuesOf(query, "state");
    assert codes == [code] <==> |codes| == 1 && codes[0] == code;
    assert states == [state] <==> |states| == 1 && states[0] == state;
  }

  // Another client.

  lemma ForeignAnswerRefused(laws: Laws, w: World, app: App, factors: Factors,
                             answer: Challenges.Answer)
    requires w.flow.client != LoginClient(app)
    ensures var (after, r) := AnswerPage(laws, app, factors, w, answer);
            r.Refused? && after.log == w.log && after.awaits == w.awaits
  {
    hide NextChallenge, Challenges.Check, LoginClient;
  }

  /** Another client's answer ends the login without a request. */
  lemma ForeignClientRefused(laws: Laws, w: World, app: App, factors: Factors,
                             answer: Challenges.Answer)
    requires w.flow.client != LoginClient(app)
    ensures var after := Called(laws, w, Advance(app, factors, answer));
            && !after.flow.lifecycle.Active? && after.awaits == w.awaits
            && exists e ::
                 after.log == w.log + [Entered(Advance(app, factors, answer)), Returned(Refused(e))]
  {
    hide AnswerPage, FirstPage, ExchangeCode, LoginClient;
    var entered := Log(w, Entered(Advance(app, factors, answer)));
    ForeignAnswerRefused(laws, entered, app, factors, answer);
    var r := AnswerPage(laws, app, factors, entered, answer).1;
    assert Called(laws, w, Advance(app, factors, answer)).log ==
        w.log + [Entered(Advance(app, factors, answer)), Returned(Refused(r.error))];
  }
}
