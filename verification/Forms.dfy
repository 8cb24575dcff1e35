/** A recognised page's form: what may be posted, where, and with which values. */
module Forms {
  import opened Common
  import opened Text
  import opened Pages
  import opened PageProofs
  import opened Urls

  /** Resolving a reference against a page's URL, a library operation. */
  type Join = (Url, string) -> Option<Url>

  const LOGIN_POSTED: set<string> := {"username", "password", "credentialId"}
  const OTP_POSTED: set<string> := {"otp", "selectedCredentialId"}
  const ACTION_PATH_SUFFIX: string := "/login-actions/authenticate"
  const ACTION_QUERY: set<string> := {"session_code", "execution", "client_id", "tab_id"}

  datatype Form = Form(action: Url, fields: seq<(string, string)>, devices: seq<string>)

  predicate EndsWith(s: string, suffix: string) {
    |suffix| <= |s| && s[|s| - |suffix|..] == suffix
  }

  predicate NamesDistinct(pairs: seq<(string, string)>) {
    forall i, j :: 0 <= j < i < |pairs| ==> pairs[j].0 != pairs[i].0
  }

  predicate HasValue(pairs: seq<(string, string)>, name: string) {
    exists i :: 0 <= i < |pairs| && pairs[i].0 == name && pairs[i].1 != ""
  }

  function CheckAction(page: Url, action: Url): Result<()> {
    if action.scheme != "https" || !SameOrigin(action, page) then
      Err(Protocol("login form posts to another site"))
    else if !EndsWith(action.path, ACTION_PATH_SUFFIX) then
      Err(Protocol("login form does not post to login-actions"))
    else if !NamesDistinct(action.query) then
      Err(Protocol("repeated login form action parameter"))
    else if exists name <- ACTION_QUERY :: !HasValue(action.query, name) then
      Err(Protocol("login form action missing session values"))
    else Ok(())
  }

  function ActionUrl(page: Url, action: Option<string>, join: Join): Result<Url> {
    if action.None? || action.value == "" then Err(Protocol("login form without action"))
    else
      match join(page, action.value)
      case None => Err(Protocol("invalid login form action"))
      case Some(url) =>
        match CheckAction(page, url) case Ok(_) => Ok(url) case Err(e) => Err(e)
  }

  /** The controls a browser would submit, kept to the names the page may post. */
  function PostedFields(controls: seq<Control>, posted: set<string>): seq<(string, string)> {
    if controls == [] then []
    else
      var c := controls[0];
      (if c.name in posted && ((c.kind != "radio" && c.kind != "checkbox") || c.checked)
       then [(c.name, c.value)] else [])
      + PostedFields(controls[1..], posted)
  }

  /** The values given to one field name, in order. */
  function ValuesOf(fields: seq<(string, string)>, name: string): seq<string> {
    if fields == [] then []
    else (if fields[0].0 == name then [fields[0].1] else []) + ValuesOf(fields[1..], name)
  }

  /** Classify a page and take its form; `tokens` is `None` for a body that is not UTF-8. */
  function Extract(page: Url, tokens: Option<seq<Token>>, join: Join): Result<(PageKind, Form)> {
    if tokens.None? then Err(Protocol("unknown login page"))
    else
      var scan := Scanned(tokens.value);
      match Kind(scan)
      case None => Err(Protocol("unknown login page"))
      case Some(kind) =>
        if scan.formMethod.None? || !EqualIgnoringCase(scan.formMethod.value, "post") then
          Err(Protocol("login form must use POST"))
        else
          match ActionUrl(page, scan.action, join)
          case Err(e) => Err(e)
          case Ok(action) =>
            var fields :=
              PostedFields(scan.controls, if kind.OneTimeCode? then OTP_POSTED else LOGIN_POSTED);
            var offered := if kind.OneTimeCode? then Ids(kind.devices) else [];
            var devices :=
              if offered == [] then ValuesOf(fields, "selectedCredentialId") else offered;
            Ok((kind, Form(action, fields, devices)))
  }

  // Filling a form in.

  predicate HasField(form: Form, name: string) {
    exists i :: 0 <= i < |form.fields| && form.fields[i].0 == name
  }

  /** Answers the form accepts: each for a field it has, none twice, a device it offers. */
  predicate Acceptable(form: Form, answers: seq<(string, string)>) {
    && NamesDistinct(answers)
    && forall i :: 0 <= i < |answers| ==>
         && HasField(form, answers[i].0)
         && (answers[i].0 == "selectedCredentialId" ==> answers[i].1 in form.devices)
  }

  function AnswerOr(answers: seq<(string, string)>, name: string, given: string): string {
    if answers == [] then given
    else if answers[0].0 == name then answers[0].1
    else AnswerOr(answers[1..], name, given)
  }

  /** What an accepted form posts: its own fields in page order, each with its answer or else
      the page's value. */
  function Filled(form: Form, answers: seq<(string, string)>): (r: seq<(string, string)>)
    ensures |r| == |form.fields|
  {
    seq(|form.fields|, i requires 0 <= i < |form.fields| =>
      (form.fields[i].0, AnswerOr(answers, form.fields[i].0, form.fields[i].1)))
  }

  /** Why answers from the `i`th on are refused; the first fault decides. */
  function Refusal(form: Form, answers: seq<(string, string)>, i: nat): (r: Option<string>)
    requires i <= |answers| && Acceptable(form, answers[..i])
    ensures r.None? <==> Acceptable(form, answers)
    decreases |answers| - i
  {
    if i == |answers| then
      assert answers[..i] == answers;
      None
    else
      var (name, value) := answers[i];
      assert Acceptable(form, answers) ==>
          HasField(form, answers[i].0) && (name == "selectedCredentialId" ==> value in form.devices);
      if !HasField(form, name) then Some("answer for a field the page does not have")
      else if exists j :: 0 <= j < i && answers[j].0 == name then Some("repeated answer")
      else if name == "selectedCredentialId" && value !in form.devices then
        Some("device not offered by the page")
      else
        assert answers[..i + 1] == answers[..i] + [answers[i]];
        Refusal(form, answers, i + 1)
  }

  /** What submitting answers posts, if they are accepted. */
  function Submitted(form: Form, answers: seq<(string, string)>): Result<seq<(string, string)>> {
    match Refusal(form, answers, 0)
    case None => Ok(Filled(form, answers))
    case Some(reason) => Err(Protocol(reason))
  }

  /** Check the answers one by one, then fill the form in. */
  method Submit(form: Form, answers: seq<(string, string)>) returns (r: Result<seq<(string, string)>>)
    ensures r == Submitted(form, answers)
    ensures r.Ok? <==> Acceptable(form, answers)
    ensures r.Ok? ==> r.value == Filled(form, answers)
  {
    for i := 0 to |answers|
      invariant Acceptable(form, answers[..i])
      invariant Refusal(form, answers, i) == Refusal(form, answers, 0)
    {
      var (name, value) := answers[i];
      if !HasField(form, name) {
        return Err(Protocol("answer for a field the page does not have"));
      }
      if exists j :: 0 <= j < i && answers[j].0 == name {
        return Err(Protocol("repeated answer"));
      }
      if name == "selectedCredentialId" && value !in form.devices {
        return Err(Protocol("device not offered by the page"));
      }
      assert answers[..i + 1] == answers[..i] + [answers[i]];
    }
    assert answers[..|answers|] == answers;
    var values: seq<(string, string)> := [];
    for i := 0 to |form.fields|
      invariant |values| == i
      invariant forall k :: 0 <= k < i ==> values[k] == Filled(form, answers)[k]
    {
      var (name, given) := form.fields[i];
      var value := FindAnswer(answers, name, given);
      values := values + [(name, value)];
    }
    assert values == Filled(form, answers);
    r := Ok(values);
  }

  method FindAnswer(answers: seq<(string, string)>, name: string, given: string)
      returns (value: string)
    ensures value == AnswerOr(answers, name, given)
  {
    for i := 0 to |answers|
      invariant AnswerOr(answers, name, given) == AnswerOr(answers[i..], name, given)
    {
      if answers[i].0 == name {
        return answers[i].1;
      }
    }
    value := given;
  }

  lemma {:induction false} AnswerFound(answers: seq<(string, string)>, i: nat, name: string,
                                       given: string)
    requires NamesDistinct(answers) && i < |answers| && answers[i].0 == name
    ensures AnswerOr(answers, name, given) == answers[i].1
  {
    if i > 0 {
      assert answers[0].0 != answers[i].0;
      AnswerFound(answers[1..], i - 1, name, given);
    }
  }

  lemma {:induction false} AnswerOrigin(answers: seq<(string, string)>, name: string, given: string)
    ensures var v := AnswerOr(answers, name, given);
            v == given || exists i :: 0 <= i < |answers| && answers[i] == (name, v)
    ensures (forall i :: 0 <= i < |answers| ==> answers[i].0 != name) ==>
              AnswerOr(answers, name, given) == given
  {
    if answers != [] && answers[0].0 != name {
      AnswerOrigin(answers[1..], name, given);
    } else if answers != [] {
      assert answers[0] == (name, AnswerOr(answers, name, given));
    }
  }

  /** Every answer is posted under its own name, and a field without an answer keeps the page's
      value. */
  lemma FilledIsFaithful(form: Form, answers: seq<(string, string)>, k: nat)
    requires Acceptable(form, answers) && k < |form.fields|
    ensures var (name, value) := Filled(form, answers)[k];
            && name == form.fields[k].0
            && (forall i :: 0 <= i < |answers| && answers[i].0 == name ==> value == answers[i].1)
            && ((forall i :: 0 <= i < |answers| ==> answers[i].0 != name) ==>
                 value == form.fields[k].1)
  {
    var (name, given) := form.fields[k];
    AnswerOrigin(answers, name, given);
    forall i | 0 <= i < |answers| && answers[i].0 == name
      ensures AnswerOr(answers, name, given) == answers[i].1
    {
      AnswerFound(answers, i, name, given);
    }
  }

  // What extraction guarantees.

  lemma {:induction false} PostedFrom(controls: seq<Control>, posted: set<string>, k: nat)
    requires k < |PostedFields(controls, posted)|
    ensures var f := PostedFields(controls, posted)[k];
            f.0 in posted && exists c <- controls :: c.name == f.0 && c.value == f.1
  {
    var c := controls[0];
    if c.name in posted && ((c.kind != "radio" && c.kind != "checkbox") || c.checked) {
      if k > 0 {
        PostedFrom(controls[1..], posted, k - 1);
      }
    } else {
      PostedFrom(controls[1..], posted, k);
    }
  }

  lemma {:induction false} ValueAmong(fields: seq<(string, string)>, k: nat)
    requires k < |fields|
    ensures fields[k].1 in ValuesOf(fields, fields[k].0)
  {
    if k > 0 {
      ValueAmong(fields[1..], k - 1);
    }
  }

  /** A form worth filling in: every device the page itself would post is one it offers. */
  predicate SelfConsistent(form: Form) {
    forall k :: 0 <= k < |form.fields| && form.fields[k].0 == "selectedCredentialId" ==>
      form.fields[k].1 in form.devices
  }

  lemma DefaultsAreOffered(page: Url, tokens: Option<seq<Token>>, join: Join)
    requires Extract(page, tokens, join).Ok?
    ensures SelfConsistent(Extract(page, tokens, join).value.1)
  {
    hide Scanned;
    var (kind, form) := Extract(page, tokens, join).value;
    var scan := Scanned(tokens.value);
    forall k | 0 <= k < |form.fields| && form.fields[k].0 == "selectedCredentialId"
      ensures form.fields[k].1 in form.devices
    {
      if kind.OneTimeCode? && kind.devices != [] {
        DevicesAreOffered(scan);
        PostedFrom(scan.controls, OTP_POSTED, k);
        assert Ids(kind.devices) != [];
      } else {
        ValueAmong(form.fields, k);
      }
    }
  }

  /** Only fields its kind of page may post. */
  predicate PostsOnly(form: Form, kind: PageKind) {
    forall k :: 0 <= k < |form.fields| ==>
      form.fields[k].0 in if kind.OneTimeCode? then OTP_POSTED else LOGIN_POSTED
  }

  /** An extracted form posts over HTTPS to its page's own origin, under Keycloak's action path,
      with each session value present once, and only fields the page kind may post. */
  lemma ExtractedForm(page: Url, tokens: Option<seq<Token>>, join: Join)
    requires Extract(page, tokens, join).Ok?
    ensures var (kind, form) := Extract(page, tokens, join).value;
            && form.action.scheme == "https" && SameOrigin(form.action, page)
            && EndsWith(form.action.path, ACTION_PATH_SUFFIX)
            && (forall name <- ACTION_QUERY ::
                 exists i :: 0 <= i < |form.action.query| && form.action.query[i].0 == name
                   && form.action.query[i].1 != ""
                   && forall j :: 0 <= j < |form.action.query| && form.action.query[j].0 == name
                        ==> j == i)
            && PostsOnly(form, kind)
  {
    hide Kind, Scanned, PostedFields, ValuesOf, EqualIgnoringCase, SameOrigin, EndsWith;
    var (kind, form) := Extract(page, tokens, join).value;
    var scan := Scanned(tokens.value);
    forall k | 0 <= k < |form.fields|
      ensures form.fields[k].0 in if kind.OneTimeCode? then OTP_POSTED else LOGIN_POSTED
    {
      PostedFrom(scan.controls, if kind.OneTimeCode? then OTP_POSTED else LOGIN_POSTED, k);
    }
    forall name <- ACTION_QUERY
      ensures exists i :: 0 <= i < |form.action.query| && form.action.query[i].0 == name
                && form.action.query[i].1 != ""
                && forall j :: 0 <= j < |form.action.query| && form.action.query[j].0 == name
                     ==> j == i
    {
      assert HasValue(form.action.query, name);
    }
  }

  /** Whatever is posted as the chosen device is a device the page offered. */
  lemma PostedDeviceIsOffered(page: Url, tokens: Option<seq<Token>>, join: Join,
                              answers: seq<(string, string)>, k: nat)
    requires Extract(page, tokens, join).Ok?
    requires var form := Extract(page, tokens, join).value.1;
             Acceptable(form, answers) && k < |Filled(form, answers)|
    ensures var form := Extract(page, tokens, join).value.1;
            Filled(form, answers)[k].0 == "selectedCredentialId" ==>
              Filled(form, answers)[k].1 in form.devices
  {
    var form := Extract(page, tokens, join).value.1;
    DefaultsAreOffered(page, tokens, join);
    AnswerOrigin(answers, form.fields[k].0, form.fields[k].1);
  }

  // What extraction gives.

  /** A browser would submit the control: it may be posted and, if a radio or a checkbox, is checked. */
  predicate Submits(c: Control, posted: set<string>) {
    c.name in posted && (c.kind == "radio" || c.kind == "checkbox" ==> c.checked)
  }

  /** How many of the controls before `k` are submitted. */
  function Rank(controls: seq<Control>, posted: set<string>, k: nat): nat
    requires k <= |controls|
  {
    if k == 0 then 0
    else Rank(controls, posted, k - 1) + if Submits(controls[k - 1], posted) then 1 else 0
  }

  lemma {:induction false} PostedAppend(controls: seq<Control>, c: Control, posted: set<string>)
    ensures PostedFields(controls + [c], posted) ==
            PostedFields(controls, posted) + if Submits(c, posted) then [(c.name, c.value)] else []
  {
    if controls == [] {
      assert controls + [c] == [c];
      assert PostedFields([c], posted) == PostedFields([c], posted) + [];
    } else {
      PostedAppend(controls[1..], c, posted);
      assert (controls + [c])[1..] == controls[1..] + [c];
    }
  }

  lemma {:induction false} PostedPrefix(controls: seq<Control>, posted: set<string>, n: nat)
    requires n <= |controls|
    ensures |PostedFields(controls[..n], posted)| == Rank(controls, posted, n)
    ensures forall k :: 0 <= k < n && Submits(controls[k], posted) ==>
              Rank(controls, posted, k) < Rank(controls, posted, n)
              && PostedFields(controls[..n], posted)[Rank(controls, posted, k)]
                   == (controls[k].name, controls[k].value)
  {
    hide Submits;
    if n > 0 {
      PostedPrefix(controls, posted, n - 1);
      assert controls[..n] == controls[..n - 1] + [controls[n - 1]];
      PostedAppend(controls[..n - 1], controls[n - 1], posted);
    } else {
      assert controls[..0] == [];
    }
  }

  /** The fields are the submitted controls', all of them and in order: the one with `Rank` submitted
      before it stands at that place, and there are no more. */
  lemma PostedExactly(controls: seq<Control>, posted: set<string>)
    ensures |PostedFields(controls, posted)| == Rank(controls, posted, |controls|)
    ensures forall k :: 0 <= k < |controls| && Submits(controls[k], posted) ==>
              Rank(controls, posted, k) < |PostedFields(controls, posted)|
              && PostedFields(controls, posted)[Rank(controls, posted, k)]
                   == (controls[k].name, controls[k].value)
  {
    PostedPrefix(controls, posted, |controls|);
    assert controls[..|controls|] == controls;
  }

  /** Each of the session's values is there, not empty, and no name repeats. */
  predicate NamesSession(query: seq<(string, string)>) {
    && (forall i, j :: 0 <= j < i < |query| ==> query[j].0 != query[i].0)
    && Gives(query, "session_code") && Gives(query, "execution")
    && Gives(query, "client_id") && Gives(query, "tab_id")
  }

  predicate Gives(query: seq<(string, string)>, name: string) {
    exists pair <- query :: pair.0 == name && pair.1 != ""
  }

  lemma GivesMeans(query: seq<(string, string)>, name: string)
    ensures Gives(query, name) <==> HasValue(query, name)
  {
    if HasValue(query, name) {
      var i :| 0 <= i < |query| && query[i].0 == name && query[i].1 != "";
      assert query[i] in query;
    }
  }

  lemma ActionExactly(page: Url, url: Url)
    ensures CheckAction(page, url).Ok? <==>
            && url.scheme == "https" && SameOrigin(url, page)
            && (exists front :: url.path == front + "/login-actions/authenticate")
            && NamesSession(url.query)
  {
    hide SameOrigin, Gives, HasValue;
    forall name ensures Gives(url.query, name) <==> HasValue(url.query, name) {
      GivesMeans(url.query, name);
    }
    if EndsWith(url.path, ACTION_PATH_SUFFIX) {
      assert url.path ==
          url.path[..|url.path| - |ACTION_PATH_SUFFIX|] + url.path[|url.path| - |ACTION_PATH_SUFFIX|..];
    }
    if front :| url.path == front + "/login-actions/authenticate" {
      assert url.path[|front|..] == "/login-actions/authenticate";
      assert |url.path| - |ACTION_PATH_SUFFIX| == |front|;
    }
  }

  /** A body extracts to a kind and a form exactly when it is UTF-8 markup of that kind whose form posts,
      to an action that joins to an HTTPS URL of the page's origin under login-actions/authenticate with
      the session's values; and the form has that action, the submitted controls that its kind may post,
      and the devices its kind offers or else those the page itself would post. */
  lemma ExtractsExactly(page: Url, tokens: Option<seq<Token>>, join: Join, kind: PageKind, form: Form)
    ensures Extract(page, tokens, join) == Ok((kind, form)) <==>
            && tokens.Some?
            && var scan := Scanned(tokens.value);
               && Kind(scan) == Some(kind)
               && scan.formMethod.Some? && Lower(scan.formMethod.value) == Lower("post")
               && scan.action.Some? && scan.action.value != ""
               && join(page, scan.action.value) == Some(form.action)
               && form.action.scheme == "https" && SameOrigin(form.action, page)
               && (exists front :: form.action.path == front + "/login-actions/authenticate")
               && NamesSession(form.action.query)
               && form.fields ==
                    PostedFields(scan.controls,
                                 if kind.OneTimeCode? then {"otp", "selectedCredentialId"}
                                 else {"username", "password", "credentialId"})
               && form.devices ==
                    if kind.OneTimeCode? && kind.devices != [] then Ids(kind.devices)
                    else ValuesOf(form.fields, "selectedCredentialId")
  {
    hide Kind, Scanned, PostedFields, ValuesOf, SameOrigin, CheckAction, NamesSession, Lower;
    if tokens.Some? {
      var scan := Scanned(tokens.value);
      if scan.action.Some? {
        var joined := join(page, scan.action.value);
        if joined.Some? {
          ActionExactly(page, joined.value);
        }
      }
      if kind.OneTimeCode? {
        assert Ids(kind.devices) == [] <==> kind.devices == [];
      }
    }
  }
}
