/** What cleaning a label keeps, and when it collapses whitespace as promised. */
module Labels {
  import opened Text

  predicate AllKept(s: string) {
    forall i :: 0 <= i < |s| ==> Kept(s[i])
  }

  predicate IsWord(w: string) {
    w != [] && forall i :: 0 <= i < |w| ==> !IsWhitespace(w[i])
  }

  predicate AreWords(ws: seq<string>) {
    forall i :: 0 <= i < |ws| ==> IsWord(ws[i]) && AllKept(ws[i])
  }

  lemma {:induction false} KeepAll(s: string)
    requires AllKept(s)
    ensures KeepVisible(s) == s
  {
    if s != [] {
      KeepAll(s[1..]);
    }
  }

  lemma {:induction false} TrimKeeps(s: string)
    requires AllKept(s)
    ensures AllKept(TrimStart(s))
  {
    if s != [] && IsWhitespace(s[0]) {
      TrimKeeps(s[1..]);
    }
  }

  lemma {:induction false} FirstWordIsWord(s: string)
    requires AllKept(s)
    ensures var w := FirstWord(s);
            AllKept(w) && forall i :: 0 <= i < |w| ==> !IsWhitespace(w[i])
  {
    if s != [] && !IsWhitespace(s[0]) {
      FirstWordIsWord(s[1..]);
    }
  }

  lemma {:induction false} WordsAreWords(s: string)
    requires AllKept(s)
    ensures AreWords(Words(s))
    decreases |s|
  {
    var t := TrimStart(s);
    if t != [] {
      TrimKeeps(s);
      FirstWordIsWord(t);
      WordsAreWords(t[|FirstWord(t)|..]);
    }
  }

  lemma {:induction false} FirstWordStops(w: string, rest: string)
    requires forall i :: 0 <= i < |w| ==> !IsWhitespace(w[i])
    requires rest == [] || IsWhitespace(rest[0])
    ensures FirstWord(w + rest) == w
  {
    if w == [] {
      assert w + rest == rest;
    } else {
      FirstWordStops(w[1..], rest);
      assert (w + rest)[1..] == w[1..] + rest;
    }
  }

  lemma WordsOf(w: string, rest: string)
    requires IsWord(w) && (rest == [] || IsWhitespace(rest[0]))
    ensures Words(w + rest) == [w] + Words(rest)
  {
    var s := w + rest;
    assert s[0] == w[0];
    assert TrimStart(s) == s;
    FirstWordStops(w, rest);
    assert s[|w|..] == rest;
  }

  lemma WordsAfterSpace(rest: string)
    ensures Words(" " + rest) == Words(rest)
  {
    assert (" " + rest)[1..] == rest;
    assert TrimStart(" " + rest) == TrimStart(rest);
  }

  lemma WordsOfOne(w: string)
    requires IsWord(w)
    ensures Words(w) == [w]
  {
    WordsOf(w, []);
    assert w + [] == w;
    assert Words([]) == [];
  }

  lemma WordsOfPair(w: string, rest: string, more: seq<string>)
    requires IsWord(w) && Words(rest) == more
    ensures Words(w + " " + rest) == [w] + more
  {
    WordsAfterSpace(rest);
    WordsOf(w, " " + rest);
    assert w + " " + rest == w + (" " + rest);
  }

  lemma {:induction false} WordsJoined(ws: seq<string>)
    requires AreWords(ws)
    ensures Words(JoinWords(ws)) == ws
  {
    if |ws| == 1 {
      WordsOfOne(ws[0]);
      assert ws == [ws[0]];
    } else if |ws| >= 2 {
      WordsJoined(ws[1..]);
      WordsOfPair(ws[0], JoinWords(ws[1..]), ws[1..]);
      assert ws == [ws[0]] + ws[1..];
    }
  }

  /** No blank at either end, and no two blanks together; a blank is always one space. */
  predicate Collapsed(s: string) {
    && (s != [] ==> !IsWhitespace(s[0]) && !IsWhitespace(s[|s| - 1]))
    && (forall i :: 0 <= i < |s| && IsWhitespace(s[i]) ==> s[i] == ' ')
    && (forall i :: 0 <= i < |s| - 1 && IsWhitespace(s[i]) ==> !IsWhitespace(s[i + 1]))
  }

  lemma PairParts(w: string, rest: string, i: nat)
    requires i < |w + " " + rest|
    ensures (w + " " + rest)[i] ==
            if i < |w| then w[i] else if i == |w| then ' ' else rest[i - |w| - 1]
  {
  }

  lemma PairKept(w: string, rest: string)
    requires IsWord(w) && AllKept(w) && AllKept(rest) && Collapsed(rest)
    ensures AllKept(w + " " + rest)
    ensures forall i :: 0 <= i < |w + " " + rest| && IsWhitespace((w + " " + rest)[i]) ==>
              (w + " " + rest)[i] == ' '
  {
    forall i | 0 <= i < |w + " " + rest| ensures var c := (w + " " + rest)[i];
                                         Kept(c) && (IsWhitespace(c) ==> c == ' ')
    {
      PairParts(w, rest, i);
    }
  }

  lemma PairCollapsed(w: string, rest: string)
    requires IsWord(w) && AllKept(w) && AllKept(rest) && Collapsed(rest) && rest != []
    ensures Collapsed(w + " " + rest)
  {
    var s := w + " " + rest;
    PairKept(w, rest);
    PairParts(w, rest, 0);
    PairParts(w, rest, |s| - 1);
    forall i | 0 <= i < |s| - 1 && IsWhitespace(s[i]) ensures !IsWhitespace(s[i + 1]) {
      PairParts(w, rest, i);
      PairParts(w, rest, i + 1);
    }
  }

  lemma {:induction false} JoinedCollapsed(ws: seq<string>)
    requires AreWords(ws)
    ensures Collapsed(JoinWords(ws)) && AllKept(JoinWords(ws))
    ensures ws != [] ==> JoinWords(ws) != []
  {
    if |ws| >= 2 {
      JoinedCollapsed(ws[1..]);
      PairKept(ws[0], JoinWords(ws[1..]));
      PairCollapsed(ws[0], JoinWords(ws[1..]));
    }
  }

  /** A cleaned label holds no control or formatting character and only single inner spaces,
      and cleaning it again changes nothing. */
  lemma CleanLabelIsClean(s: string)
    ensures AllKept(CleanLabel(s)) && Collapsed(CleanLabel(s))
    ensures CleanLabel(CleanLabel(s)) == CleanLabel(s)
  {
    var ws := Words(KeepVisible(s));
    WordsAreWords(KeepVisible(s));
    JoinedCollapsed(ws);
    WordsJoined(ws);
    KeepAll(CleanLabel(s));
  }

  // What survives.

  /** A character a label shows: neither dropped nor blank. */
  predicate Visible(c: char) {
    Kept(c) && !IsWhitespace(c)
  }

  function VisibleIn(s: string): string {
    if s == "" then "" else (if Visible(s[0]) then [s[0]] else "") + VisibleIn(s[1..])
  }

  /** The visible characters in order, with one space before each that has a break since the last
      one; `started` and `gap` say whether there was one and whether a break came since. */
  function Spaced(s: string, breaks: char -> bool, started: bool, gap: bool): string {
    if s == "" then ""
    else if Visible(s[0]) then
      (if started && gap then " " else "") + [s[0]] + Spaced(s[1..], breaks, true, false)
    else Spaced(s[1..], breaks, started, gap || breaks(s[0]))
  }

  lemma {:induction false} SpacedShows(s: string, breaks: char -> bool, started: bool, gap: bool)
    ensures VisibleIn(Spaced(s, breaks, started, gap)) == VisibleIn(s)
  {
    if s != "" {
      if Visible(s[0]) {
        var rest := Spaced(s[1..], breaks, true, false);
        SpacedShows(s[1..], breaks, true, false);
        assert ([s[0]] + rest)[1..] == rest;
        assert (" " + ([s[0]] + rest))[1..] == [s[0]] + rest;
        assert " " + [s[0]] + rest == " " + ([s[0]] + rest);
      } else {
        SpacedShows(s[1..], breaks, started, gap || breaks(s[0]));
      }
    }
  }

  // Collapsing whitespace, as a fold.

  function ShownWords(words: seq<string>): seq<string> {
    if words == [] then []
    else
      var shown := KeepVisible(words[0]);
      (if shown == "" then [] else [shown]) + ShownWords(words[1..])
  }

  /** What collapsing whitespace promises: the text's words, each without its dropped characters. */
  function Promised(s: string): string {
    JoinWords(ShownWords(Words(s)))
  }

  lemma {:induction false} GapIsIdle(s: string, breaks: char -> bool, gap: bool)
    ensures Spaced(s, breaks, false, gap) == Spaced(s, breaks, false, true)
  {
    if s != "" && !Visible(s[0]) {
      GapIsIdle(s[1..], breaks, gap || breaks(s[0]));
      GapIsIdle(s[1..], breaks, true);
    }
  }

  lemma {:induction false} TrimIsIdle(s: string, started: bool)
    ensures Spaced(s, IsWhitespace, started, true) == Spaced(TrimStart(s), IsWhitespace, started, true)
  {
    if s != "" && IsWhitespace(s[0]) {
      TrimIsIdle(s[1..], started);
    }
  }

  /** What a word adds to the text spaced so far. */
  function WordThen(w: string, rest: string, started: bool, gap: bool): string {
    var shown := KeepVisible(w);
    if shown == "" then Spaced(rest, IsWhitespace, started, gap)
    else (if started && gap then " " else "") + shown + Spaced(rest, IsWhitespace, true, false)
  }

  lemma {:induction false} WordSpaced(w: string, rest: string, started: bool, gap: bool)
    requires forall i :: 0 <= i < |w| ==> !IsWhitespace(w[i])
    ensures Spaced(w + rest, IsWhitespace, started, gap) == WordThen(w, rest, started, gap)
  {
    if w == "" {
      assert w + rest == rest;
    } else {
      var t := w[1..];
      assert (w + rest)[0] == w[0] && (w + rest)[1..] == t + rest;
      if Visible(w[0]) {
        WordSpaced(t, rest, true, false);
        VisibleThen(w[0], t, rest, started, gap);
        assert w == [w[0]] + t;
      } else {
        WordSpaced(t, rest, started, gap);
        DroppedThen(w[0], t);
        assert w == [w[0]] + t;
      }
    }
  }

  lemma DroppedThen(c: char, t: string)
    requires !Kept(c)
    ensures KeepVisible([c] + t) == KeepVisible(t)
  {
    assert ([c] + t)[1..] == t;
  }

  lemma VisibleThen(c: char, t: string, rest: string, started: bool, gap: bool)
    requires Visible(c)
    ensures WordThen([c] + t, rest, started, gap) ==
            (if started && gap then " " else "") + [c] + WordThen(t, rest, true, false)
  {
    assert ([c] + t)[1..] == t;
    var lead, shown := if started && gap then " " else "", KeepVisible(t);
    var after := Spaced(rest, IsWhitespace, true, false);
    assert KeepVisible([c] + t) == [c] + shown;
    assert lead + ([c] + shown) + after == lead + [c] + (shown + after);
    assert "" + shown + after == shown + after;
  }

  lemma {:induction false} FirstWordEnds(s: string)
    ensures var w := FirstWord(s);
            && w <= s && (forall i :: 0 <= i < |w| ==> !IsWhitespace(w[i]))
            && (s[|w|..] == "" || IsWhitespace(s[|w|]))
  {
    if s != "" && !IsWhitespace(s[0]) {
      FirstWordEnds(s[1..]);
    }
  }

  lemma NothingSpaced(started: bool, gap: bool)
    ensures Spaced("", IsWhitespace, started, gap) == ""
    ensures ShownWords([]) == [] && JoinWords([]) == ""
  {
  }

  lemma WordsFrom(s: string)
    ensures var t := TrimStart(s);
            && (t == "" ==> Words(s) == [])
            && (t != "" ==> |FirstWord(t)| > 0
                            && Words(s) == [FirstWord(t)] + Words(t[|FirstWord(t)|..]))
  {
  }

  lemma {:induction false} ShownSpaced(s: string, started: bool)
    ensures Spaced(s, IsWhitespace, started, true) ==
            (if started && ShownWords(Words(s)) != [] then " " else "") + Promised(s)
    decreases |s|
  {
    hide Spaced, KeepVisible, Words, ShownWords, JoinWords, TrimStart, FirstWord;
    var t := TrimStart(s);
    TrimIsIdle(s, started);
    WordsFrom(s);
    NothingSpaced(started, true);
    if t != "" {
      var w := FirstWord(t);
      var rest := t[|w|..];
      FirstWordEnds(t);
      assert t == w + rest;
      WordSpaced(w, rest, started, true);
      ShownFirst(w, Words(rest));
      if KeepVisible(w) == "" {
        ShownSpaced(rest, started);
      } else {
        AfterWord(rest);
        ShownSpaced(rest, true);
        JoinFirst(KeepVisible(w), ShownWords(Words(rest)));
        Regrouped(if started then " " else "", KeepVisible(w), Spaced(rest, IsWhitespace, true, true));
      }
    }
  }

  lemma Regrouped(a: string, b: string, c: string)
    ensures a + b + c == a + (b + c)
  {
  }

  lemma ShownFirst(w: string, words: seq<string>)
    ensures ShownWords([w] + words) ==
            if KeepVisible(w) == "" then ShownWords(words) else [KeepVisible(w)] + ShownWords(words)
  {
    assert ([w] + words)[1..] == words;
  }

  lemma AfterWord(rest: string)
    requires rest == "" || IsWhitespace(rest[0])
    ensures Spaced(rest, IsWhitespace, true, false) == Spaced(rest, IsWhitespace, true, true)
  {
  }

  lemma JoinFirst(w: string, words: seq<string>)
    ensures JoinWords([w] + words) == w + (if words == [] then "" else " " + JoinWords(words))
  {
    assert ([w] + words)[1..] == words;
    if words != [] {
      assert w + " " + JoinWords(words) == w + (" " + JoinWords(words));
    }
  }

  /** Collapsing whitespace puts one space wherever whitespace stood between visible characters. */
  lemma PromisedSpaced(s: string)
    ensures Promised(s) == Spaced(s, IsWhitespace, false, false)
  {
    ShownSpaced(s, false);
    GapIsIdle(s, IsWhitespace, false);
  }

  function KeptBlank(c: char): bool {
    Kept(c) && IsWhitespace(c)
  }

  lemma {:induction false} KeptSpaced(s: string, started: bool, gap: bool)
    ensures Spaced(s, KeptBlank, started, gap) == Spaced(KeepVisible(s), IsWhitespace, started, gap)
  {
    if s != "" {
      var rest := KeepVisible(s[1..]);
      if Kept(s[0]) {
        assert KeepVisible(s) == [s[0]] + rest;
        assert KeepVisible(s)[0] == s[0] && KeepVisible(s)[1..] == rest;
      } else {
        assert KeepVisible(s) == rest;
      }
      if Visible(s[0]) {
        KeptSpaced(s[1..], true, false);
      } else {
        KeptSpaced(s[1..], started, gap || KeptBlank(s[0]));
      }
    }
  }

  lemma {:induction false} ShownKeepsAll(words: seq<string>)
    requires AreWords(words)
    ensures ShownWords(words) == words
  {
    if words != [] {
      KeepAll(words[0]);
      ShownKeepsAll(words[1..]);
      assert words == [words[0]] + words[1..];
    }
  }

  /** Cleaning a label puts a space only where a kept blank stood between visible characters. */
  lemma CleanSpaced(s: string)
    ensures CleanLabel(s) == Spaced(s, KeptBlank, false, false)
  {
    WordsAreWords(KeepVisible(s));
    ShownKeepsAll(Words(KeepVisible(s)));
    PromisedSpaced(KeepVisible(s));
    KeptSpaced(s, false, false);
  }

  /** Cleaning a label loses no visible character and changes none: those of the label, in order, are
      those of the text. */
  lemma CleanLabelShows(s: string)
    ensures VisibleIn(CleanLabel(s)) == VisibleIn(s)
  {
    CleanSpaced(s);
    SpacedShows(s, KeptBlank, false, false);
  }

  // When a label's whitespace is collapsed, not lost.

  predicate AllDropped(s: string) {
    forall i :: 0 <= i < |s| ==> !Kept(s[i])
  }

  predicate AnyBlank(s: string) {
    exists i :: 0 <= i < |s| && IsWhitespace(s[i])
  }

  /** Two visible characters with only dropped ones between them, at least one of them whitespace,
      such as a newline or a tab. */
  predicate Runs(s: string, i: nat, j: nat) {
    i < j < |s| && Visible(s[i]) && Visible(s[j]) && AllDropped(s[i + 1..j]) && AnyBlank(s[i + 1..j])
  }

  /** A visible character that the two ways of spacing treat differently, the first one that comes
      `kept` and `any` say, whether a kept blank and any blank came since the last visible one. */
  predicate Differs(s: string, started: bool, kept: bool, any: bool) {
    s != "" &&
    (if Visible(s[0]) then (started && kept != any) || Differs(s[1..], true, false, false)
     else Differs(s[1..], started, kept || KeptBlank(s[0]), any || IsWhitespace(s[0])))
  }

  lemma {:induction false} SpacedAgrees(s: string, started: bool, kept: bool, any: bool)
    requires kept ==> any
    ensures Spaced(s, KeptBlank, started, kept) == Spaced(s, IsWhitespace, started, any) <==>
            !Differs(s, started, kept, any)
  {
    if s != "" {
      var t := s[1..];
      if Visible(s[0]) {
        SpacedAgrees(t, true, false, false);
        SameAfter(s[0], Spaced(t, KeptBlank, true, false), Spaced(t, IsWhitespace, true, false),
                  started && kept, started && any);
      } else {
        SpacedAgrees(t, started, kept || KeptBlank(s[0]), any || IsWhitespace(s[0]));
      }
    }
  }

  lemma SameAfter(c: char, p: string, q: string, first: bool, second: bool)
    requires c != ' '
    ensures (if first then " " else "") + [c] + p == (if second then " " else "") + [c] + q <==>
            p == q && first == second
  {
    var a, b := (if first then " " else "") + [c] + p, (if second then " " else "") + [c] + q;
    assert a[0] == (if first then ' ' else c) && b[0] == (if second then ' ' else c);
    if first == second {
      var k := if first then 2 else 1;
      assert a[k..] == p && b[k..] == q;
    }
  }

  /** The next visible character, reached over dropped ones with a blank among them or before. */
  predicate RunsOn(s: string, j: nat, any: bool) {
    j < |s| && Visible(s[j]) && AllDropped(s[..j]) && (any || AnyBlank(s[..j]))
  }

  lemma {:induction false} DiffersMeans(s: string, started: bool, kept: bool, any: bool)
    requires kept ==> any
    ensures Differs(s, started, kept, any) <==>
            (started && !kept && exists j: nat :: RunsOn(s, j, any))
            || exists i: nat, j: nat :: Runs(s, i, j)
  {
    if s != "" {
      var t := s[1..];
      InnerRuns(s);
      if Visible(s[0]) {
        DiffersMeans(t, true, false, false);
        FirstRuns(s, any);
      } else {
        var now := any || IsWhitespace(s[0]);
        DiffersMeans(t, started, kept || KeptBlank(s[0]), now);
        RunsOnward(s, any, now);
      }
    }
  }

  /** A run in a text is one in its tail, or starts at its first character. */
  lemma InnerRuns(s: string)
    requires s != ""
    ensures (exists i: nat, j: nat :: Runs(s, i, j)) <==>
            (exists i: nat, j: nat :: Runs(s[1..], i, j))
            || (Visible(s[0]) && exists j: nat :: RunsOn(s[1..], j, false))
  {
    var t := s[1..];
    forall i: nat, j: nat | Runs(s, i, j)
      ensures (exists i: nat, j: nat :: Runs(t, i, j))
              || (Visible(s[0]) && exists j: nat :: RunsOn(t, j, false))
    {
      if i > 0 {
        assert t[i..j - 1] == s[i + 1..j];
        assert Runs(t, i - 1, j - 1);
      } else {
        assert t[..j - 1] == s[1..j];
        assert RunsOn(t, j - 1, false);
      }
    }
    forall i: nat, j: nat | Runs(t, i, j) ensures Runs(s, i + 1, j + 1) {
      assert s[i + 2..j + 1] == t[i + 1..j];
    }
    forall j: nat | RunsOn(t, j, false) && Visible(s[0]) ensures Runs(s, 0, j + 1) {
      assert s[1..j + 1] == t[..j];
    }
  }

  lemma FirstRuns(s: string, any: bool)
    requires s != "" && Visible(s[0])
    ensures (exists j: nat :: RunsOn(s, j, any)) <==> any
  {
    forall j: nat | RunsOn(s, j, any) ensures any {
      assert j > 0 ==> s[..j][0] == s[0];
    }
    if any {
      assert RunsOn(s, 0, any);
    }
  }

  lemma RunsOnward(s: string, any: bool, now: bool)
    requires s != "" && !Visible(s[0]) && now == (any || IsWhitespace(s[0]))
    ensures (exists j: nat :: RunsOn(s, j, any)) <==>
            !Kept(s[0]) && exists j: nat :: RunsOn(s[1..], j, now)
  {
    var t := s[1..];
    forall j: nat | RunsOn(s, j, any) ensures j > 0 && !Kept(s[0]) && RunsOn(t, j - 1, now) {
      DroppedFirst(s, j);
    }
    forall j: nat | RunsOn(t, j, now) && !Kept(s[0]) ensures RunsOn(s, j + 1, any) {
      DroppedFirst(s, j + 1);
    }
  }

  lemma DroppedFirst(s: string, j: nat)
    requires 0 < j <= |s|
    ensures AllDropped(s[..j]) <==> !Kept(s[0]) && AllDropped(s[1..][..j - 1])
    ensures AnyBlank(s[..j]) <==> IsWhitespace(s[0]) || AnyBlank(s[1..][..j - 1])
  {
    var front, back := s[..j], s[1..][..j - 1];
    assert front[0] == s[0];
    assert forall i :: 0 < i < j ==> front[i] == back[i - 1];
    assert forall i :: 0 <= i < j - 1 ==> back[i] == front[i + 1];
  }

  /** A label's whitespace is collapsed as promised exactly when no two visible characters have only
      dropped ones between them with whitespace among those. */
  lemma CleanLabelCollapses(s: string)
    ensures CleanLabel(s) == Promised(s) <==> !exists i: nat, j: nat :: Runs(s, i, j)
  {
    CleanSpaced(s);
    PromisedSpaced(s);
    SpacedAgrees(s, false, false, false);
    DiffersMeans(s, false, false, false);
  }

  lemma SpacedThree(a: char, x: char, b: char, breaks: char -> bool)
    requires Visible(a) && Visible(b) && !Visible(x)
    ensures Spaced([a, x, b], breaks, false, false) == if breaks(x) then [a, ' ', b] else [a, b]
  {
    var s := [a, x, b];
    assert s[1..] == [x, b] && [x, b][1..] == [b] && [b][1..] == "";
    assert Spaced([b], breaks, true, breaks(x)) == if breaks(x) then " " + [b] else [b];
    assert Spaced([x, b], breaks, true, false) == Spaced([b], breaks, true, breaks(x));
  }

  /** A newline between two words is dropped before whitespace is collapsed, so the words join. */
  lemma NewlineJoinsWords()
    ensures Promised("a\nb") == "a b" && CleanLabel("a\nb") == "ab"
  {
    hide Spaced, Promised, CleanLabel;
    CleanSpaced("a\nb");
    PromisedSpaced("a\nb");
    SpacedThree('a', '\n', 'b', KeptBlank);
    SpacedThree('a', '\n', 'b', IsWhitespace);
    assert "a\nb" == ['a', '\n', 'b'];
  }
}
