/** Properties of the scan and of the page kind. */
module PageProofs {
  import opened Common
  import opened Text
  import opened Pages

  // Template contents are inert.

  /** How deep in templates `tokens` end, when they start `depth` deep and never leave the
      outermost one. */
  function TemplateDepth(tokens: seq<Token>, depth: nat): Option<nat> {
    if tokens == [] then Some(depth)
    else
      match tokens[0]
      case StartTag(tag) =>
        TemplateDepth(tokens[1..], if OpensTemplate(tag) then depth + 1 else depth)
      case EndTag(name) =>
        if name != "template" then TemplateDepth(tokens[1..], depth)
        else if depth <= 1 then None
        else TemplateDepth(tokens[1..], depth - 1)
      case _ => TemplateDepth(tokens[1..], depth)
  }

  /** Tokens that open and close templates in pairs. */
  predicate Balanced(tokens: seq<Token>) {
    TemplateDepth(tokens, 1) == Some(1)
  }

  lemma {:induction false} StepsSplit(s: Scan, front: seq<Token>, back: seq<Token>)
    requires WellFormed(s)
    ensures Steps(s, front + back) == Steps(Steps(s, front), back)
    decreases |front|
  {
    hide Step, WellFormed;
    if front == [] {
      assert front + back == back;
    } else {
      StepsSplit(Step(s, front[0]), front[1..], back);
      assert (front + back)[1..] == front[1..] + back;
    }
  }

  lemma {:induction false} InsideTemplate(s: Scan, tokens: seq<Token>, depth: nat)
    requires WellFormed(s) && 1 <= depth <= s.templates
    requires TemplateDepth(tokens, depth).Some?
    ensures Steps(s, tokens)
         == s.(templates := s.templates - depth + TemplateDepth(tokens, depth).value)
    decreases |tokens|
  {
    hide TileElement, ErrorElement, Element, Nest, CloseCapture;
    if tokens != [] {
      var t := Step(s, tokens[0]);
      InsideTemplate(t, tokens[1..], depth + t.templates - s.templates);
    }
  }

  /** A template block, whatever balanced tokens it holds, can be put anywhere in a page without
      changing what the page is taken for. */
  lemma TemplatesAreInert(before: seq<Token>, tag: Tag, inner: seq<Token>, after: seq<Token>)
    requires OpensTemplate(tag) && Balanced(inner)
    ensures var block := [StartTag(tag)] + inner + [EndTag("template")];
            && Scanned(before + block + after) == Scanned(before + after)
            && Kind(Scanned(before + block + after)) == Kind(Scanned(before + after))
  {
    var block := [StartTag(tag)] + inner + [EndTag("template")];
    var s := Steps(EMPTY, before);
    StepsSplit(EMPTY, before + block, after);
    StepsSplit(EMPTY, before, block);
    StepsSplit(EMPTY, before, after);
    BlockIsInert(s, tag, inner);
  }

  lemma BlockIsInert(s: Scan, tag: Tag, inner: seq<Token>)
    requires WellFormed(s) && OpensTemplate(tag) && Balanced(inner)
    ensures Steps(s, [StartTag(tag)] + inner + [EndTag("template")]) == s
  {
    var inside := Start(s, tag);
    StepsSplit(s, [StartTag(tag)] + inner, [EndTag("template")]);
    StepsSplit(s, [StartTag(tag)], inner);
    assert Steps(s, [StartTag(tag)]) == inside;
    InsideTemplate(inside, inner, 1);
    assert Steps(inside, [EndTag("template")]) == End(inside, "template");
  }

  // The tiles' sort.

  predicate SortedTiles(tiles: seq<Tile>) {
    forall i, j :: 0 <= i < j < |tiles| ==> tiles[i].index <= tiles[j].index
  }

  lemma {:induction false} InsertKeeps(tile: Tile, sorted: seq<Tile>)
    ensures multiset(InsertTile(tile, sorted)) == multiset([tile]) + multiset(sorted)
  {
    if sorted != [] && tile.index > sorted[0].index {
      InsertKeeps(tile, sorted[1..]);
      assert sorted == [sorted[0]] + sorted[1..];
    }
  }

  lemma {:induction false} InsertSorts(tile: Tile, sorted: seq<Tile>)
    requires SortedTiles(sorted)
    ensures SortedTiles(InsertTile(tile, sorted))
    ensures sorted != [] && tile.index > sorted[0].index ==> InsertTile(tile, sorted)[0] == sorted[0]
  {
    if sorted != [] && tile.index > sorted[0].index {
      var more := sorted[1..];
      InsertSorts(tile, more);
      var r := InsertTile(tile, more);
      assert r[0] == tile || r[0] == more[0];
      forall i | 0 <= i < |r| ensures sorted[0].index <= r[i].index {
        assert r[0].index <= r[i].index;
      }
    }
  }

  lemma {:induction false} SortIsPermutation(tiles: seq<Tile>)
    ensures SortedTiles(SortTiles(tiles)) && multiset(SortTiles(tiles)) == multiset(tiles)
  {
    if tiles != [] {
      SortIsPermutation(tiles[1..]);
      InsertSorts(tiles[0], SortTiles(tiles[1..]));
      InsertKeeps(tiles[0], SortTiles(tiles[1..]));
      assert tiles == [tiles[0]] + tiles[1..];
    }
  }

  /** The tiles carry the numbers 0 to n-1, each once. */
  predicate Permuted(tiles: seq<Tile>) {
    && (forall i :: 0 <= i < |tiles| ==> tiles[i].index < |tiles|)
    && (forall i, j :: 0 <= i < j < |tiles| ==> tiles[i].index != tiles[j].index)
  }

  /** Sorting numbers the tiles in place exactly when they carry the numbers 0 to n-1. */
  lemma SortedNumbering(tiles: seq<Tile>)
    ensures Numbered(SortTiles(tiles)) <==> Permuted(tiles)
  {
    SortIsPermutation(tiles);
    var sorted := SortTiles(tiles);
    if Numbered(sorted) {
      NumberedIsPermuted(sorted);
      PermutedMoves(sorted, tiles);
    }
    if Permuted(tiles) {
      PermutedMoves(tiles, sorted);
      SortedAreNumbered(sorted);
    }
  }

  lemma NumberedIsPermuted(tiles: seq<Tile>)
    requires Numbered(tiles)
    ensures Permuted(tiles)
  {
  }

  /** Being numbered without repeats does not depend on the order. */
  lemma PermutedMoves(a: seq<Tile>, b: seq<Tile>)
    requires Permuted(a) && multiset(a) == multiset(b)
    ensures Permuted(b)
  {
    assert |a| == |multiset(a)| == |multiset(b)| == |b|;
    forall i | 0 <= i < |b| ensures b[i].index < |b| {
      assert b[i] in multiset(b);
      assert b[i] in a;
    }
    forall i, j | 0 <= i < j < |b| ensures b[i].index != b[j].index {
      if b[i].index == b[j].index {
        assert b[i] in multiset(b) && b[j] in multiset(b);
        assert b[i] in a && b[j] in a;
        assert b[i] == b[j];
        TwiceInSeq(b, i, j);
        OnceInSeq(a, b[i]);
        assert false;
      }
    }
  }

  lemma TwiceInSeq(s: seq<Tile>, i: nat, j: nat)
    requires i < j < |s| && s[i] == s[j]
    ensures multiset(s)[s[i]] >= 2
  {
    assert s == s[..i] + [s[i]] + s[i + 1..j] + [s[j]] + s[j + 1..];
  }

  lemma OnceInSeq(s: seq<Tile>, t: Tile)
    requires forall i, j :: 0 <= i < j < |s| ==> s[i].index != s[j].index
    ensures multiset(s)[t] <= 1
  {
    if t in s {
      var i :| 0 <= i < |s| && s[i] == t;
      assert s == s[..i] + [s[i]] + s[i + 1..];
      assert t !in s[..i] && t !in s[i + 1..];
    }
  }

  lemma SortedAreNumbered(sorted: seq<Tile>)
    requires SortedTiles(sorted) && Permuted(sorted)
    ensures Numbered(sorted)
  {
    forall i | 0 <= i < |sorted| ensures sorted[i].index == i {
      AtLeast(sorted, i);
      AtMost(sorted, i);
    }
  }

  lemma {:induction false} AtLeast(sorted: seq<Tile>, i: nat)
    requires SortedTiles(sorted) && Permuted(sorted) && i < |sorted|
    ensures sorted[i].index >= i
  {
    if i > 0 {
      AtLeast(sorted, i - 1);
      assert sorted[i - 1].index <= sorted[i].index;
    }
  }

  lemma {:induction false} AtMost(sorted: seq<Tile>, i: nat)
    requires SortedTiles(sorted) && Permuted(sorted) && i < |sorted|
    ensures sorted[i].index <= i
    decreases |sorted| - i
  {
    if i + 1 < |sorted| {
      AtMost(sorted, i + 1);
      assert sorted[i].index <= sorted[i + 1].index;
    }
  }

  // The device choice.

  lemma {:induction false} SelectedIn(controls: seq<Control>, kind: string, v: string)
    ensures v in SelectedValues(controls, kind) <==>
            exists c :: c in controls && c.name == "selectedCredentialId" && c.kind == kind
                        && c.value == v
  {
    if controls != [] {
      SelectedIn(controls[1..], kind, v);
      assert forall c :: c in controls <==> c == controls[0] || c in controls[1..];
    }
  }

  lemma {:induction false} SelectedKinds(controls: seq<Control>)
    ensures |SelectedValues(controls, "radio")| + |SelectedValues(controls, "hidden")|
         <= SelectedCount(controls)
    ensures var n := |SelectedValues(controls, "radio")| + |SelectedValues(controls, "hidden")|;
            n == SelectedCount(controls) ==>
              forall c <- controls | c.name == "selectedCredentialId" ::
                c.kind == "radio" || c.kind == "hidden"
  {
    if controls != [] {
      SelectedKinds(controls[1..]);
      assert forall c :: c in controls <==> c == controls[0] || c in controls[1..];
    }
  }

  lemma TilesAreDevices(s: Scan)
    requires Devices(s).Some?
    ensures var devices := Devices(s).value;
            && |devices| == |s.tiles| && Permuted(s.tiles)
            && forall t <- s.tiles :: t.index < |devices| &&
                 DeviceOf(s.labels, t) == Some(devices[t.index])
  {
    var tiles := SortTiles(s.tiles);
    SortedNumbering(s.tiles);
    SortIsPermutation(s.tiles);
    forall t <- s.tiles
      ensures t.index < |tiles| && DeviceOf(s.labels, t) == Some(Devices(s).value[t.index])
    {
      assert t in multiset(s.tiles);
      assert t in tiles;
    }
  }

  /** What a consistent choice says of the controls that post it. */
  lemma ChoiceIsOffered(controls: seq<Control>, ids: seq<string>, tiles: seq<Tile>)
    requires ids != []
    requires var radios, hidden := SelectedValues(controls, "radio"), SelectedValues(controls, "hidden");
             && |radios| + |hidden| == SelectedCount(controls)
             && Consistent(ids, radios, hidden, tiles)
    ensures forall c <- controls | c.name == "selectedCredentialId" ::
              (c.kind == "radio" || c.kind == "hidden") && c.value in ids
  {
    SelectedKinds(controls);
    forall c <- controls | c.name == "selectedCredentialId" ensures c.value in ids {
      SelectedIn(controls, c.kind, c.value);
    }
  }

  /** The devices of a recognised code page: distinct, in the order of their tiles' numbers, and
      whenever there is a choice every value the page itself would post is one of them. */
  lemma DevicesAreOffered(s: Scan)
    requires Devices(s).Some?
    ensures var devices := Devices(s).value;
            && |devices| == |s.tiles| && Permuted(s.tiles) && Distinct(Ids(devices))
            && (forall t <- s.tiles :: t.index < |devices| &&
                 DeviceOf(s.labels, t) == Some(devices[t.index]))
            && (devices != [] ==>
                 forall c <- s.controls | c.name == "selectedCredentialId" ::
                   (c.kind == "radio" || c.kind == "hidden") && c.value in Ids(devices))
  {
    TilesAreDevices(s);
    if Devices(s).value != [] {
      ChoiceIsOffered(s.controls, Ids(Devices(s).value), SortTiles(s.tiles));
    }
  }

  // A tile's onclick.

  lemma TrimNothing(s: string)
    requires s != "" && !IsWhitespace(s[0]) && !IsWhitespace(s[|s| - 1])
    ensures Trim(s) == s
  {
  }

  lemma DecimalIsTrimmed(n: nat)
    ensures Trim(Decimal(n)) == Decimal(n)
  {
    var s := Decimal(n);
    assert IsDecimal(s[0]) && IsDecimal(s[|s| - 1]);
    TrimNothing(s);
  }

  lemma DecimalParses(n: nat)
    requires n < USIZE_LIMIT
    ensures ParseUsize(Trim(Decimal(n))) == Some(n)
  {
    DecimalIsTrimmed(n);
    DecimalReads(n);
    assert IsDecimal(Decimal(n)[0]);
  }

  lemma {:induction false} SplitsAt(front: string, c: char, back: string)
    requires c !in front
    ensures SplitOnce(front + [c] + back, c) == Some((front, back))
  {
    var s := front + [c] + back;
    if front == "" {
      assert s == [c] + back;
    } else {
      SplitsAt(front[1..], c, back);
      assert s[1..] == front[1..] + [c] + back;
      assert s[0] == front[0] && front[0] in front;
      assert [front[0]] + front[1..] == front;
    }
  }

  predicate PlainId(id: string) {
    id != "" && '\'' !in id && '"' !in id && '\\' !in id
  }

  lemma QuotedId(id: string, quote: char)
    requires PlainId(id) && (quote == '\'' || quote == '"')
    ensures Unquote(Trim(" " + [quote] + id + [quote])) == Some(id)
  {
    var s := [quote] + id + [quote];
    assert " " + [quote] + id + [quote] == " " + s;
    assert (" " + s)[1..] == s;
    TrimNothing(s);
    assert TrimStart(" " + s) == TrimStart(s) == s;
    assert s[1..] == id + [quote];
  }

  /** The arguments of a call whose text needs no trimming. */
  lemma CallArguments(arguments: string)
    ensures var onclick := "toggleOTP(" + (arguments + ")");
            StripPrefix(TrimEndOf(Trim(onclick), ';'), "toggleOTP(") == Some(arguments + ")")
    ensures StripSuffix(arguments + ")", ")") == Some(arguments)
  {
    var onclick := "toggleOTP(" + (arguments + ")");
    assert onclick[0] == 't' && onclick[|onclick| - 1] == ')';
    TrimNothing(onclick);
    assert onclick[10..] == arguments + ")";
    var call := arguments + ")";
    assert call[..|arguments|] == arguments && call[|arguments|..] == ")";
  }

  /** The call keycloak.v2 writes for a tile is read back as the tile's credential. */
  lemma ToggleRoundTrip(index: nat, id: string, quote: char)
    requires index < USIZE_LIMIT && PlainId(id) && (quote == '\'' || quote == '"')
    ensures var argument := " " + [quote] + id + [quote];
            var onclick := "toggleOTP(" + (Decimal(index) + [','] + argument + ")");
            ToggleCredential(onclick, index) == Some(id)
  {
    var argument := " " + [quote] + id + [quote];
    CallArguments(Decimal(index) + [','] + argument);
    assert ',' !in Decimal(index) by {
      assert forall i :: 0 <= i < |Decimal(index)| ==> IsDecimal(Decimal(index)[i]);
    }
    SplitsAt(Decimal(index), ',', argument);
    DecimalParses(index);
    QuotedId(id, quote);
  }
}
