/** The prompts a page asks, the answers a caller gives, and the check between them. */
module Challenges {
  import opened Common
  import opened Pages

  datatype Challenge =
    | AskUsername
    | AskPassword
    | AskCode(devices: seq<OtpDevice>)
    | AskRecoveryCode(hint: Option<nat>)
    | AskWebAuthn(credentials: seq<string>)
    | AskMethod(methods: seq<(string, string)>)
    | AskAction(actionFields: seq<string>)
    | AskAcknowledge(message: string)

  datatype Answer =
    | GiveUsername(name: string)
    | GivePassword(password: string)
    | GiveCode(code: string, device: Option<string>)
    | GiveRecoveryCode(recovery: string)
    | GiveAssertion(credential: string)
    | GiveMethod(chosen: string)
    | GiveAction(values: seq<(string, string)>)
    | Acknowledge

  /** What is left of a challenge once the caller has it: enough to judge the answer. */
  datatype Expect =
    | ExpectUsername
    | ExpectPassword
    | ExpectCode(devices: seq<string>)
    | ExpectRecoveryCode
    | ExpectAssertion(allowed: seq<string>)
    | ExpectMethod(methods: seq<string>)
    | ExpectAction(fields: seq<string>)
    | ExpectAcknowledge

  function ExpectOf(challenge: Challenge): Expect {
    match challenge
    case AskUsername => ExpectUsername
    case AskPassword => ExpectPassword
    case AskCode(devices) => ExpectCode(Ids(devices))
    case AskRecoveryCode(_) => ExpectRecoveryCode
    case AskWebAuthn(credentials) => ExpectAssertion(credentials)
    case AskMethod(methods) =>
      ExpectMethod(seq(|methods|, i requires 0 <= i < |methods| => methods[i].0))
    case AskAction(fields) => ExpectAction(fields)
    case AskAcknowledge(_) => ExpectAcknowledge
  }

  function Names(values: seq<(string, string)>): seq<string> {
    seq(|values|, i requires 0 <= i < |values| => values[i].0)
  }

  function Count(names: seq<string>, name: string): nat {
    multiset(names)[name]
  }

  /** Whether named values answer a required action's fields, as the check counts them. */
  predicate AnswersFields(fields: seq<string>, names: seq<string>) {
    |names| == |fields| && forall i :: 0 <= i < |fields| ==> Count(names, fields[i]) == 1
  }

  function Check(expected: Expect, answer: Answer): Result<()> {
    var mismatch := Protocol("answer does not match the challenge");
    match (expected, answer)
    case (ExpectUsername, GiveUsername(_)) => Ok(())
    case (ExpectPassword, GivePassword(_)) => Ok(())
    case (ExpectRecoveryCode, GiveRecoveryCode(_)) => Ok(())
    case (ExpectAcknowledge, Acknowledge) => Ok(())
    case (ExpectCode(devices), GiveCode(_, device)) =>
      if device.None? then (if devices == [] then Ok(()) else Err(mismatch))
      else if device.value in devices then Ok(())
      else Err(Protocol("device not offered by the page"))
    case (ExpectAssertion(allowed), GiveAssertion(credential)) =>
      if allowed == [] || credential in allowed then Ok(()) else Err(Protocol("credential not allowed"))
    case (ExpectMethod(methods), GiveMethod(chosen)) =>
      if chosen in methods then Ok(()) else Err(Protocol("method not offered"))
    case (ExpectAction(fields), GiveAction(values)) =>
      if AnswersFields(fields, Names(values)) then Ok(())
      else Err(Protocol("answer does not match the required action"))
    case _ => Err(mismatch)
  }

  /** An answer passes the check made from a challenge. */
  predicate Passes(challenge: Challenge, answer: Answer) {
    Check(ExpectOf(challenge), answer).Ok?
  }

  predicate AllDifferent(names: seq<string>) {
    forall i, j :: 0 <= j < i < |names| ==> names[j] != names[i]
  }

  lemma {:induction false} DifferentCounts(names: seq<string>)
    requires AllDifferent(names)
    ensures forall n :: Count(names, n) <= 1
  {
    if names != [] {
      DifferentCounts(names[1..]);
      assert names == [names[0]] + names[1..];
      assert names[0] !in names[1..];
      forall n ensures Count(names, n) <= 1 {
        assert Count(names, n) == multiset([names[0]])[n] + Count(names[1..], n);
      }
    }
  }

  lemma {:induction false} DifferentCovered(fields: seq<string>, m: multiset<string>)
    requires AllDifferent(fields)
    requires forall i :: 0 <= i < |fields| ==> m[fields[i]] >= 1
    ensures multiset(fields) <= m
  {
    DifferentCounts(fields);
    forall n ensures multiset(fields)[n] <= m[n] {
      if n in fields {
        assert Count(fields, n) <= 1;
      }
    }
  }

  lemma SameSize(a: multiset<string>, b: multiset<string>)
    requires a <= b && |a| == |b|
    ensures a == b
  {
    assert b == a + (b - a);
    assert |b| == |a| + |b - a|;
  }

  lemma DifferentExact(fields: seq<string>, names: seq<string>)
    requires AllDifferent(fields)
    ensures AnswersFields(fields, names) <==> multiset(names) == multiset(fields)
  {
    hide AllDifferent;
    DifferentCounts(fields);
    if AnswersFields(fields, names) {
      DifferentCovered(fields, multiset(names));
      SameSize(multiset(fields), multiset(names));
    }
    if multiset(names) == multiset(fields) {
      assert |names| == |multiset(names)| == |multiset(fields)| == |fields|;
      forall i | 0 <= i < |fields| ensures Count(names, fields[i]) == 1 {
        assert fields[i] in multiset(fields);
        assert Count(fields, fields[i]) <= 1;
      }
    }
  }

  lemma RepeatedInexact(fields: seq<string>)
    requires !AllDifferent(fields)
    ensures !AnswersFields(fields, fields)
  {
    var i, j :| 0 <= j < i < |fields| && fields[j] == fields[i];
    assert fields == fields[..j] + [fields[j]] + fields[j + 1..i] + [fields[i]] + fields[i + 1..];
    assert Count(fields, fields[i]) >= 2;
  }

  /** The check for a required action counts names. It accepts exactly the answers that give
      every field once, and nothing else, if and only if the page's field names are different. */
  lemma ActionCheckIsExact(fields: seq<string>)
    ensures (forall names :: AnswersFields(fields, names) <==> multiset(names) == multiset(fields))
        <==> AllDifferent(fields)
  {
    hide AnswersFields, AllDifferent;
    if AllDifferent(fields) {
      forall names ensures AnswersFields(fields, names) <==> multiset(names) == multiset(fields) {
        DifferentExact(fields, names);
      }
    } else {
      RepeatedInexact(fields);
    }
  }

  /** With a field name repeated, an answer that leaves a field out and adds an unknown name is
      accepted. */
  lemma RepeatedFieldAcceptsStranger()
    ensures AnswersFields(["totp", "totp"], ["totp", "stranger"])
  {
    assert multiset(["totp", "stranger"])["totp"] == 1;
  }

  // What passes.

  /** What answers a challenge: the same kind; a device the page offers, or none where it offers no
      choice; a credential from the list, or any where there is no list; a method on offer; every field of
      a required action once and nothing else. */
  predicate Meets(challenge: Challenge, answer: Answer) {
    match challenge
    case AskUsername => answer.GiveUsername?
    case AskPassword => answer.GivePassword?
    case AskRecoveryCode(_) => answer.GiveRecoveryCode?
    case AskAcknowledge(_) => answer.Acknowledge?
    case AskCode(devices) =>
      && answer.GiveCode?
      && (answer.device.None? <==> devices == [])
      && (answer.device.Some? ==> exists d <- devices :: d.id == answer.device.value)
    case AskWebAuthn(credentials) =>
      answer.GiveAssertion? && (credentials != [] ==> answer.credential in credentials)
    case AskMethod(methods) =>
      answer.GiveMethod? && exists m <- methods :: m.0 == answer.chosen
    case AskAction(fields) =>
      && answer.GiveAction? && |answer.values| == |fields|
      && forall i :: 0 <= i < |fields| ==> Once(answer.values, fields[i])
  }

  /** One of the values, and no other, has this name. */
  predicate Once(values: seq<(string, string)>, name: string) {
    exists i :: 0 <= i < |values| && values[i].0 == name
      && forall j :: 0 <= j < |values| && values[j].0 == name ==> j == i
  }

  /** An answer passes exactly when it meets the challenge. */
  lemma PassesExactly(challenge: Challenge, answer: Answer)
    ensures Passes(challenge, answer) <==> Meets(challenge, answer)
  {
    match challenge
    case AskCode(devices) =>
      if answer.GiveCode? && answer.device.Some? {
        IdAmong(devices, answer.device.value);
      }
    case AskMethod(methods) =>
      if answer.GiveMethod? {
        FirstAmong(methods, answer.chosen);
      }
    case AskAction(fields) =>
      if answer.GiveAction? {
        hide Count, Once;
        forall field ensures Count(Names(answer.values), field) == 1 <==> Once(answer.values, field) {
          OnceMeans(answer.values, field);
        }
      }
    case _ =>
  }

  lemma IdAmong(devices: seq<OtpDevice>, id: string)
    ensures id in Ids(devices) <==> exists d <- devices :: d.id == id
  {
    if d :| d in devices && d.id == id {
      var i :| 0 <= i < |devices| && devices[i] == d;
      assert Ids(devices)[i] == id;
    }
    if id in Ids(devices) {
      var i :| 0 <= i < |devices| && Ids(devices)[i] == id;
      assert devices[i] in devices;
    }
  }

  lemma FirstAmong(methods: seq<(string, string)>, chosen: string)
    ensures chosen in Names(methods) <==> exists m <- methods :: m.0 == chosen
  {
    if m :| m in methods && m.0 == chosen {
      var i :| 0 <= i < |methods| && methods[i] == m;
      assert Names(methods)[i] == chosen;
    }
    if chosen in Names(methods) {
      var i :| 0 <= i < |methods| && Names(methods)[i] == chosen;
      assert methods[i] in methods;
    }
  }

  /** A name counts once exactly when one place has it. */
  lemma OnceMeans(values: seq<(string, string)>, name: string)
    ensures Count(Names(values), name) == 1 <==> Once(values, name)
  {
    var names := Names(values);
    assert |names| == |values| && forall i :: 0 <= i < |names| ==> names[i] == values[i].0;
    if i :| 0 <= i < |names| && names[i] == name {
      CountAround(names, i);
      forall j | 0 <= j < |names| && j != i
        ensures names[j] in names[..i] || names[j] in names[i + 1..]
      {
        AtAnotherPlace(names, i, j);
      }
      if name in names[..i] {
        var j :| 0 <= j < i && names[..i][j] == name;
        assert values[j].0 == name;
      } else if name in names[i + 1..] {
        var j :| 0 <= j < |names| - i - 1 && names[i + 1..][j] == name;
        assert values[i + 1 + j].0 == name;
      }
    }
  }

  lemma AtAnotherPlace(names: seq<string>, i: nat, j: nat)
    requires i < |names| && j < |names| && i != j
    ensures names[j] in names[..i] || names[j] in names[i + 1..]
  {
    if j < i {
      assert names[..i][j] == names[j];
    } else {
      assert names[i + 1..][j - i - 1] == names[j];
    }
  }

  /** A name at a place counts once exactly when it is neither before nor after it. */
  lemma CountAround(names: seq<string>, i: nat)
    requires i < |names|
    ensures Count(names, names[i]) == 1 <==> names[i] !in names[..i] && names[i] !in names[i + 1..]
  {
    assert names == names[..i] + [names[i]] + names[i + 1..];
    assert multiset(names)[names[i]] ==
        multiset(names[..i])[names[i]] + 1 + multiset(names[i + 1..])[names[i]];
  }
}
