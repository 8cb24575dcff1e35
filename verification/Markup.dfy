/** What markup yields, by position: which tags count, which form is open where, which element a text
    belongs to. A page's scan is exactly what its tokens say here. */
module Markup {
  import opened Common
  import opened Text
  import opened Pages
  import opened PageProofs

  // Which tokens count.

  /** How many templates are open before token `n`. */
  function Templates(tokens: seq<Token>, n: nat): nat
    requires n <= |tokens|
  {
    if n == 0 then 0
    else
      var open := Templates(tokens, n - 1);
      match tokens[n - 1]
      case StartTag(tag) => if tag.name == "template" && !tag.selfClosing then open + 1 else open
      case EndTag(name) => if name == "template" && open > 0 then open - 1 else open
      case _ => open
  }

  /** A start tag that counts: it is in no template and opens none. */
  predicate Starts(tokens: seq<Token>, i: nat)
    requires i < |tokens|
  {
    && tokens[i].StartTag? && Templates(tokens, i) == 0
    && !(tokens[i].tag.name == "template" && !tokens[i].tag.selfClosing)
  }

  predicate StartsNamed(tokens: seq<Token>, i: nat, name: string)
    requires i < |tokens|
  {
    Starts(tokens, i) && tokens[i].tag.name == name
  }

  predicate Ends(tokens: seq<Token>, i: nat, name: string)
    requires i < |tokens|
  {
    tokens[i].EndTag? && Templates(tokens, i) == 0 && tokens[i].name == name
  }

  // The form.

  /** A form tag came before token `n`, and no end of a form since. */
  ghost predicate InForm(tokens: seq<Token>, n: nat)
    requires n <= |tokens|
  {
    exists j :: 0 <= j < n && StartsNamed(tokens, j, "form")
      && forall k :: j < k < n ==> !Ends(tokens, k, "form")
  }

  /** A form tag that is not inside a form. */
  ghost predicate OpensForm(tokens: seq<Token>, i: nat)
    requires i < |tokens|
  {
    StartsNamed(tokens, i, "form") && !InForm(tokens, i)
  }

  ghost function FormsBefore(tokens: seq<Token>, n: nat): nat
    requires n <= |tokens|
  {
    if n == 0 then 0 else FormsBefore(tokens, n - 1) + if OpensForm(tokens, n - 1) then 1 else 0
  }

  /** The last tag before `n` that opened a form. */
  ghost function LastForm(tokens: seq<Token>, n: nat): (r: Option<Tag>)
    requires n <= |tokens|
  {
    if n == 0 then None
    else if OpensForm(tokens, n - 1) then Some(tokens[n - 1].tag)
    else LastForm(tokens, n - 1)
  }

  ghost function LastFormAttribute(tokens: seq<Token>, n: nat, name: string): Option<string>
    requires n <= |tokens|
  {
    match LastForm(tokens, n)
    case Some(tag) => Attribute(tag, name)
    case None => None
  }

  // The controls.

  predicate IsControl(tokens: seq<Token>, i: nat)
    requires i < |tokens|
  {
    Starts(tokens, i) && tokens[i].tag.name in {"input", "select", "textarea", "button"}
  }

  predicate IsNamed(tag: Tag) {
    Attribute(tag, "name").Some? && Attribute(tag, "name").value != ""
  }

  /** The control a tag is: its name, its type in lower case or what stands for none, its value and
      whether it is checked. */
  function ControlFrom(tag: Tag): Control
    requires IsNamed(tag)
  {
    var kind, value := Attribute(tag, "type"), Attribute(tag, "value");
    Control(
      Attribute(tag, "name").value,
      if kind.Some? then Lower(kind.value) else if tag.name == "button" then "submit" else "text",
      if value.Some? then value.value else "",
      Attribute(tag, "checked").Some?)
  }

  /** The named control tags inside a form, in order. */
  ghost function ControlsBefore(tokens: seq<Token>, n: nat): seq<Control>
    requires n <= |tokens|
  {
    if n == 0 then []
    else
      ControlsBefore(tokens, n - 1)
      + if IsControl(tokens, n - 1) && IsNamed(tokens[n - 1].tag) && InForm(tokens, n - 1) then
          [ControlFrom(tokens[n - 1].tag)]
        else []
  }

  /** What no real login page has: a form in a form, a control that names another form or action, or a
      named control outside every form. */
  ghost predicate IsOdd(tokens: seq<Token>, i: nat)
    requires i < |tokens|
  {
    || (StartsNamed(tokens, i, "form") && InForm(tokens, i))
    || (IsControl(tokens, i)
        && (|| Attribute(tokens[i].tag, "form").Some? || Attribute(tokens[i].tag, "formaction").Some?
            || (IsNamed(tokens[i].tag) && !InForm(tokens, i))))
  }

  ghost predicate AnyOdd(tokens: seq<Token>, n: nat)
    requires n <= |tokens|
  {
    exists i :: 0 <= i < n && IsOdd(tokens, i)
  }

  // The tiles.

  /** The number of the device a tag stands for, from its id. */
  function DeviceNumber(tokens: seq<Token>, i: nat): Option<nat>
    requires i < |tokens|
  {
    if Starts(tokens, i) then TileIndex(tokens[i].tag) else None
  }

  function TilesBefore(tokens: seq<Token>, n: nat): nat
    requires n <= |tokens|
  {
    if n == 0 then 0
    else TilesBefore(tokens, n - 1) + if DeviceNumber(tokens, n - 1).Some? then 1 else 0
  }

  // The texts.

  /** What the text of the element that token `i` starts is for: a label of a control, the message of a
      rejected field, or the title of a tile; a label's own purpose comes first, a tile's last. */
  function PurposeAt(tokens: seq<Token>, i: nat): Option<Target>
    requires i < |tokens|
  {
    if !Starts(tokens, i) || tokens[i].tag.selfClosing then None
    else
      var tag := tokens[i].tag;
      var id := Attribute(tag, "id");
      if tag.name == "label" && Attribute(tag, "for").Some? then
        Some(LabelFor(Attribute(tag, "for").value))
      else if id.Some? && IsFieldError(id.value) then Some(FieldError)
      else if TileIndex(tag).Some? && tag.name != "input" then Some(TileText(TilesBefore(tokens, i)))
      else None
  }

  /** How many elements of its own name are open before `n`, the one token `i` starts included. */
  function OpenInside(tokens: seq<Token>, i: nat, n: nat): int
    requires i < n <= |tokens| && tokens[i].StartTag?
  {
    var name := tokens[i].tag.name;
    if n == i + 1 then 1
    else
      OpenInside(tokens, i, n - 1)
      + (if StartsNamed(tokens, n - 1, name) && !tokens[n - 1].tag.selfClosing then 1 else 0)
      - (if Ends(tokens, n - 1, name) then 1 else 0)
  }

  /** The element whose text is being collected before token `n`: one that serves a purpose, started
      while no other was collected, up to its own end tag. */
  function Collected(tokens: seq<Token>, n: nat): (r: Option<nat>)
    requires n <= |tokens|
    ensures r.Some? ==> r.value < n && PurposeAt(tokens, r.value).Some?
    ensures r.Some? ==> OpenInside(tokens, r.value, n) >= 1
  {
    if n == 0 then None
    else
      match Collected(tokens, n - 1)
      case Some(i) => if OpenInside(tokens, i, n) == 0 then None else Some(i)
      case None => if PurposeAt(tokens, n - 1).Some? then Some(n - 1) else None
  }

  /** The characters between two tokens, those in templates left out. */
  function TextBetween(tokens: seq<Token>, i: nat, n: nat): string
    requires i < n <= |tokens|
  {
    if n == i + 1 then ""
    else
      TextBetween(tokens, i, n - 1)
      + if tokens[n - 1].Characters? && Templates(tokens, n - 1) == 0 then tokens[n - 1].text else ""
  }

  /** Token `n` is the end tag of the element collected before it. */
  predicate Finishes(tokens: seq<Token>, n: nat)
    requires n < |tokens|
  {
    Collected(tokens, n).Some? && Collected(tokens, n + 1).None?
  }

  /** An element's collection finishes at its own end tag: the first place where as many elements of its
      name have ended as started. */
  lemma FinishesAtOwnEnd(tokens: seq<Token>, n: nat)
    requires n < |tokens| && Finishes(tokens, n)
    ensures var i := Collected(tokens, n).value;
            && Ends(tokens, n, tokens[i].tag.name) && OpenInside(tokens, i, n + 1) == 0
            && forall k :: i < k <= n ==> OpenInside(tokens, i, k) >= 1
  {
    var i := Collected(tokens, n).value;
    forall k | i < k <= n ensures OpenInside(tokens, i, k) >= 1 {
      CollectedSince(tokens, n, k);
    }
  }

  lemma {:induction false} CollectedSince(tokens: seq<Token>, n: nat, k: nat)
    requires n <= |tokens| && Collected(tokens, n).Some? && Collected(tokens, n).value < k <= n
    ensures Collected(tokens, k) == Collected(tokens, n)
    decreases n - k
  {
    if k < n {
      CollectedSince(tokens, n - 1, k);
    }
  }

  /** The finished labels, in order of their end tags: the control each is for, and its text. */
  function LabelsBefore(tokens: seq<Token>, n: nat): seq<(string, string)>
    requires n <= |tokens|
  {
    if n == 0 then []
    else
      LabelsBefore(tokens, n - 1)
      + if Finishes(tokens, n - 1) then
          var i := Collected(tokens, n - 1).value;
          match PurposeAt(tokens, i)
          case Some(LabelFor(element)) => [(element, TextBetween(tokens, i, n - 1))]
          case _ => []
        else []
  }

  /** The finished messages of rejected fields, cleaned, without the empty ones. */
  function ErrorsBefore(tokens: seq<Token>, n: nat): seq<string>
    requires n <= |tokens|
  {
    if n == 0 then []
    else
      ErrorsBefore(tokens, n - 1)
      + if Finishes(tokens, n - 1) then
          var i := Collected(tokens, n - 1).value;
          var message := CleanLabel(TextBetween(tokens, i, n - 1));
          if PurposeAt(tokens, i) == Some(FieldError) && message != "" then [message] else []
        else []
  }

  /** The text of the tile that token `p` starts, once its collection has finished. */
  function TitleOf(tokens: seq<Token>, p: nat, n: nat): string
    requires p < n <= |tokens|
    decreases n
  {
    if n == p + 1 then ""
    else if Finishes(tokens, n - 1) && Collected(tokens, n - 1) == Some(p)
            && PurposeAt(tokens, p).value.TileText? then
      TextBetween(tokens, p, n - 1)
    else TitleOf(tokens, p, n - 1)
  }

  /** The tile a tag is, but for its text: an input's credential is its value, another's is in the call
      that its onclick makes. */
  function TileFrom(tag: Tag, text: string): Tile
    requires TileIndex(tag).Some?
  {
    var index, onclick := TileIndex(tag).value, Attribute(tag, "onclick");
    if tag.name == "input" then Tile(index, Attribute(tag, "value"), true, text)
    else
      Tile(index, if onclick.Some? then ToggleCredential(onclick.value, index) else None, false, text)
  }

  /** The tiles that start before token `m`, in order, with the texts finished before `n`. */
  function TilesFrom(tokens: seq<Token>, m: nat, n: nat): (r: seq<Tile>)
    requires m <= n <= |tokens|
    ensures |r| == TilesBefore(tokens, m)
    decreases m
  {
    if m == 0 then []
    else
      TilesFrom(tokens, m - 1, n)
      + if DeviceNumber(tokens, m - 1).Some? then
          [TileFrom(tokens[m - 1].tag, TitleOf(tokens, m - 1, n))]
        else []
  }

  // The scan.

  function CaptureAt(tokens: seq<Token>, n: nat): Option<Capture>
    requires n <= |tokens|
  {
    match Collected(tokens, n)
    case None => None
    case Some(i) =>
      Some(Capture(PurposeAt(tokens, i).value, tokens[i].tag.name, OpenInside(tokens, i, n),
                   TextBetween(tokens, i, n)))
  }

  /** What the tokens before `n` yield. */
  ghost function ScanOf(tokens: seq<Token>, n: nat): Scan
    requires n <= |tokens|
  {
    Scan(FormsBefore(tokens, n), InForm(tokens, n), LastFormAttribute(tokens, n, "action"),
         LastFormAttribute(tokens, n, "method"), ControlsBefore(tokens, n), LabelsBefore(tokens, n),
         TilesFrom(tokens, n, n), ErrorsBefore(tokens, n), CaptureAt(tokens, n), Templates(tokens, n),
         AnyOdd(tokens, n))
  }

  // One token more.

  lemma InFormNext(tokens: seq<Token>, n: nat)
    requires n < |tokens|
    ensures InForm(tokens, n + 1) <==>
            StartsNamed(tokens, n, "form") || (InForm(tokens, n) && !Ends(tokens, n, "form"))
  {
    hide StartsNamed, Ends;
    if InForm(tokens, n) && !Ends(tokens, n, "form") {
      var j :| 0 <= j < n && StartsNamed(tokens, j, "form")
        && forall k :: j < k < n ==> !Ends(tokens, k, "form");
      assert forall k :: j < k < n + 1 ==> !Ends(tokens, k, "form");
    }
  }

  lemma OddNext(tokens: seq<Token>, n: nat)
    requires n < |tokens|
    ensures AnyOdd(tokens, n + 1) <==> AnyOdd(tokens, n) || IsOdd(tokens, n)
  {
    hide IsOdd;
  }

  lemma {:induction false} TilesGrow(tokens: seq<Token>, i: nat, n: nat)
    requires i < n <= |tokens| && DeviceNumber(tokens, i).Some?
    ensures TilesBefore(tokens, i) < TilesBefore(tokens, n)
  {
    hide DeviceNumber;
    if i + 1 < n {
      TilesGrow(tokens, i, n - 1);
    }
  }

  lemma ScanIsWellFormed(tokens: seq<Token>, n: nat)
    requires n <= |tokens|
    ensures WellFormed(ScanOf(tokens, n))
  {
    if Collected(tokens, n).Some? {
      var i := Collected(tokens, n).value;
      if PurposeAt(tokens, i).value.TileText? {
        TilesGrow(tokens, i, n);
      }
    }
  }

  /** Titles that token `n` does not finish are as before. */
  lemma {:induction false} TitlesKept(tokens: seq<Token>, m: nat, n: nat)
    requires m <= n < |tokens|
    requires Finishes(tokens, n) ==>
               !PurposeAt(tokens, Collected(tokens, n).value).value.TileText?
    ensures TilesFrom(tokens, m, n + 1) == TilesFrom(tokens, m, n)
  {
    hide DeviceNumber, TileFrom, PurposeAt, Finishes, TextBetween;
    if m > 0 {
      TitlesKept(tokens, m - 1, n);
    }
  }

  /** The one title that token `n` finishes is set. */
  lemma {:induction false} TitleSet(tokens: seq<Token>, m: nat, n: nat, i: nat)
    requires m <= n < |tokens| && Finishes(tokens, n) && Collected(tokens, n) == Some(i)
    requires PurposeAt(tokens, i).value.TileText?
    ensures i < m ==> TilesBefore(tokens, i) < TilesBefore(tokens, m)
    ensures var before := TilesFrom(tokens, m, n);
            TilesFrom(tokens, m, n + 1) ==
              if i < m then
                before[TilesBefore(tokens, i) :=
                  before[TilesBefore(tokens, i)].(text := TextBetween(tokens, i, n))]
              else before
  {
    hide Finishes, TextBetween, Collected, ToggleCredential, TileIndex;
    if i < m {
      TilesGrow(tokens, i, m);
    }
    if m > 0 {
      TitleSet(tokens, m - 1, n, i);
      if i < m - 1 {
        TilesGrow(tokens, i, m - 1);
      }
    }
  }

  /** A token that neither starts nor ends an element that counts. */
  predicate Quiet(tokens: seq<Token>, n: nat)
    requires n < |tokens|
  {
    !Starts(tokens, n) && !(tokens[n].EndTag? && Templates(tokens, n) == 0)
  }

  /** The capture after token `n`, when that neither starts nor ends an element of its name. */
  function CaptureHeard(tokens: seq<Token>, n: nat): Option<Capture>
    requires n < |tokens|
  {
    match CaptureAt(tokens, n)
    case None => None
    case Some(c) =>
      if tokens[n].Characters? && Templates(tokens, n) == 0 then
        Some(c.(text := c.text + tokens[n].text))
      else Some(c)
  }

  lemma QuietKeeps(tokens: seq<Token>, n: nat)
    requires n < |tokens| && Quiet(tokens, n)
    ensures var s, t := ScanOf(tokens, n), ScanOf(tokens, n + 1);
            t == s.(capture := t.capture, templates := t.templates)
    ensures Collected(tokens, n + 1) == Collected(tokens, n)
    ensures Collected(tokens, n).Some? ==>
              var i := Collected(tokens, n).value;
              OpenInside(tokens, i, n + 1) == OpenInside(tokens, i, n)
  {
    hide ControlFrom, IsFieldError, TileIndex, CleanLabel, TileFrom, TextBetween;
    InFormNext(tokens, n);
    OddNext(tokens, n);
    TitlesKept(tokens, n, n);
  }

  lemma CaptureQuiet(tokens: seq<Token>, n: nat)
    requires n < |tokens| && Quiet(tokens, n)
    ensures CaptureAt(tokens, n + 1) == CaptureHeard(tokens, n)
  {
    hide PurposeAt, Starts, StartsNamed, OpenInside;
    QuietKeeps(tokens, n);
    if Collected(tokens, n).Some? {
      var i := Collected(tokens, n).value;
      TextNext(tokens, i, n);
      assert Collected(tokens, n + 1) == Some(i);
      assert CaptureAt(tokens, n + 1).value.depth == CaptureAt(tokens, n).value.depth;
    }
  }

  lemma TextNext(tokens: seq<Token>, i: nat, n: nat)
    requires i < n < |tokens|
    ensures TextBetween(tokens, i, n + 1) ==
            if tokens[n].Characters? && Templates(tokens, n) == 0 then
              TextBetween(tokens, i, n) + tokens[n].text
            else TextBetween(tokens, i, n)
  {
    assert TextBetween(tokens, i, n) + "" == TextBetween(tokens, i, n);
  }

  lemma QuietStep(tokens: seq<Token>, n: nat)
    requires n < |tokens| && Quiet(tokens, n) && WellFormed(ScanOf(tokens, n))
    ensures Step(ScanOf(tokens, n), tokens[n]) == ScanOf(tokens, n + 1)
  {
    hide FormsBefore, InForm, LastFormAttribute, ControlsBefore, LabelsBefore, TilesFrom, ErrorsBefore,
      AnyOdd, PurposeAt, Collected, OpenInside, TileElement, ErrorElement, Element, Nest, CloseCapture,
      TextBetween;
    QuietKeeps(tokens, n);
    CaptureQuiet(tokens, n);
  }

  // An end tag that counts.

  lemma EndKeeps(tokens: seq<Token>, n: nat)
    requires n < |tokens| && tokens[n].EndTag? && Templates(tokens, n) == 0
    ensures FormsBefore(tokens, n + 1) == FormsBefore(tokens, n)
    ensures LastForm(tokens, n + 1) == LastForm(tokens, n)
    ensures ControlsBefore(tokens, n + 1) == ControlsBefore(tokens, n)
    ensures InForm(tokens, n + 1) <==> InForm(tokens, n) && tokens[n].name != "form"
    ensures AnyOdd(tokens, n + 1) <==> AnyOdd(tokens, n)
    ensures TilesBefore(tokens, n + 1) == TilesBefore(tokens, n)
    ensures TilesFrom(tokens, n + 1, n + 1) == TilesFrom(tokens, n, n + 1)
    ensures Templates(tokens, n + 1) == 0
  {
    hide ControlFrom, TileIndex, TileFrom, TitleOf;
    InFormNext(tokens, n);
    OddNext(tokens, n);
    assert ControlsBefore(tokens, n) + [] == ControlsBefore(tokens, n);
    assert TilesFrom(tokens, n, n + 1) + [] == TilesFrom(tokens, n, n + 1);
  }

  /** Unless it finishes what is collected, an end tag leaves labels, tiles and errors alone. */
  lemma EndLeaves(tokens: seq<Token>, n: nat)
    requires n < |tokens| && tokens[n].EndTag? && Templates(tokens, n) == 0 && !Finishes(tokens, n)
    ensures LabelsBefore(tokens, n + 1) == LabelsBefore(tokens, n)
    ensures ErrorsBefore(tokens, n + 1) == ErrorsBefore(tokens, n)
    ensures TilesFrom(tokens, n, n + 1) == TilesFrom(tokens, n, n)
  {
    hide Finishes, PurposeAt, CleanLabel, TextBetween;
    TitlesKept(tokens, n, n);
    assert LabelsBefore(tokens, n) + [] == LabelsBefore(tokens, n);
    assert ErrorsBefore(tokens, n) + [] == ErrorsBefore(tokens, n);
  }

  lemma CaptureEnds(tokens: seq<Token>, n: nat)
    requires n < |tokens| && tokens[n].EndTag? && Templates(tokens, n) == 0
    ensures CaptureAt(tokens, n + 1) ==
            match CaptureAt(tokens, n)
            case None => None
            case Some(c) =>
              if c.tag != tokens[n].name then Some(c)
              else if c.depth > 1 then Some(c.(depth := c.depth - 1))
              else None
    ensures Finishes(tokens, n) <==>
            CaptureAt(tokens, n).Some? && CaptureAt(tokens, n).value.tag == tokens[n].name
            && CaptureAt(tokens, n).value.depth == 1
  {
    hide PurposeAt, TextBetween;
    assert PurposeAt(tokens, n).None? by { NoPurpose(tokens, n); }
    if Collected(tokens, n).Some? {
      TextNext(tokens, Collected(tokens, n).value, n);
    }
  }

  lemma NoPurpose(tokens: seq<Token>, n: nat)
    requires n < |tokens| && !Starts(tokens, n)
    ensures PurposeAt(tokens, n).None?
  {
  }

  lemma EndStep(tokens: seq<Token>, n: nat)
    requires n < |tokens| && tokens[n].EndTag? && Templates(tokens, n) == 0
    requires WellFormed(ScanOf(tokens, n))
    ensures Step(ScanOf(tokens, n), tokens[n]) == ScanOf(tokens, n + 1)
  {
    hide FormsBefore, InForm, LastForm, ControlsBefore, AnyOdd, PurposeAt, Collected, OpenInside,
      TextBetween, CaptureAt, LabelsBefore, ErrorsBefore, TilesFrom, Templates, Finishes, CleanLabel;
    EndKeeps(tokens, n);
    CaptureEnds(tokens, n);
    if Finishes(tokens, n) {
      EndSets(tokens, n);
    } else {
      EndLeaves(tokens, n);
    }
  }

  /** What a finishing end tag adds: a label, a tile's title, or a message. */
  lemma EndSets(tokens: seq<Token>, n: nat)
    requires n < |tokens| && Finishes(tokens, n) && CaptureAt(tokens, n).Some?
    ensures var c := CaptureAt(tokens, n).value;
            && (c.target.TileText? ==> c.target.tile < TilesBefore(tokens, n))
            && LabelsBefore(tokens, n + 1) ==
                 LabelsBefore(tokens, n) + (if c.target.LabelFor? then [(c.target.element, c.text)] else [])
            && ErrorsBefore(tokens, n + 1) ==
                 ErrorsBefore(tokens, n)
                 + (if c.target.FieldError? && CleanLabel(c.text) != "" then [CleanLabel(c.text)] else [])
            && TilesFrom(tokens, n, n + 1) ==
                 var tiles := TilesFrom(tokens, n, n);
                 if c.target.TileText? then
                   tiles[c.target.tile := tiles[c.target.tile].(text := c.text)]
                 else tiles
  {
    hide CleanLabel, TextBetween, Collected, OpenInside, Templates, Starts, IsFieldError, TileIndex,
      Finishes;
    var i := Collected(tokens, n).value;
    if PurposeAt(tokens, i).value.TileText? {
      TilesGrow(tokens, i, n);
      TitleSet(tokens, n, n, i);
    } else {
      TitlesKept(tokens, n, n);
    }
  }

  // A start tag that counts.

  lemma StartKeeps(tokens: seq<Token>, n: nat)
    requires n < |tokens| && Starts(tokens, n)
    ensures !Finishes(tokens, n) && Templates(tokens, n + 1) == 0
    ensures LabelsBefore(tokens, n + 1) == LabelsBefore(tokens, n)
    ensures ErrorsBefore(tokens, n + 1) == ErrorsBefore(tokens, n)
    ensures TilesFrom(tokens, n + 1, n + 1) ==
            TilesFrom(tokens, n, n)
            + if TileIndex(tokens[n].tag).Some? then [TileFrom(tokens[n].tag, "")] else []
    ensures |TilesFrom(tokens, n, n)| == TilesBefore(tokens, n)
  {
    hide PurposeAt, CleanLabel, TextBetween, TileFrom, TileIndex;
    StartCollects(tokens, n);
    TitlesKept(tokens, n, n);
    assert LabelsBefore(tokens, n) + [] == LabelsBefore(tokens, n);
    assert ErrorsBefore(tokens, n) + [] == ErrorsBefore(tokens, n);
  }

  lemma StartCollects(tokens: seq<Token>, n: nat)
    requires n < |tokens| && Starts(tokens, n)
    ensures Collected(tokens, n + 1) ==
            if Collected(tokens, n).Some? then Collected(tokens, n)
            else if PurposeAt(tokens, n).Some? then Some(n)
            else None
  {
    hide PurposeAt;
  }

  lemma StartForm(tokens: seq<Token>, n: nat)
    requires n < |tokens| && Starts(tokens, n)
    ensures var tag := tokens[n].tag;
            var opens := tag.name == "form" && !InForm(tokens, n);
            && (InForm(tokens, n + 1) <==> tag.name == "form" || InForm(tokens, n))
            && FormsBefore(tokens, n + 1) == FormsBefore(tokens, n) + (if opens then 1 else 0)
            && LastFormAttribute(tokens, n + 1, "action") ==
                 (if opens then Attribute(tag, "action") else LastFormAttribute(tokens, n, "action"))
            && LastFormAttribute(tokens, n + 1, "method") ==
                 (if opens then Attribute(tag, "method") else LastFormAttribute(tokens, n, "method"))
  {
    hide Templates, InForm, Attribute;
    InFormNext(tokens, n);
  }

  /** The scan with what token `n` adds to forms and controls. */
  lemma StartControls(tokens: seq<Token>, n: nat)
    requires n < |tokens| && Starts(tokens, n)
    ensures var tag := tokens[n].tag;
            var control := tag.name in {"input", "select", "textarea", "button"};
            && ControlsBefore(tokens, n + 1) ==
                 ControlsBefore(tokens, n)
                 + (if control && IsNamed(tag) && InForm(tokens, n) then [ControlFrom(tag)] else [])
            && (AnyOdd(tokens, n + 1) <==>
                 || AnyOdd(tokens, n)
                 || (tag.name == "form" && InForm(tokens, n))
                 || (control
                     && (Attribute(tag, "form").Some? || Attribute(tag, "formaction").Some?
                         || (IsNamed(tag) && !InForm(tokens, n)))))
  {
    hide InForm, IsNamed, Attribute, ControlFrom;
    OddNext(tokens, n);
  }

  /** What is collected after a start tag: more of the same, or its own text. */
  lemma StartCaptures(tokens: seq<Token>, n: nat)
    requires n < |tokens| && Starts(tokens, n)
    ensures var tag := tokens[n].tag;
            CaptureAt(tokens, n + 1) ==
              match CaptureAt(tokens, n)
              case Some(c) =>
                if c.tag == tag.name && !tag.selfClosing then Some(c.(depth := c.depth + 1)) else Some(c)
              case None =>
                match PurposeAt(tokens, n)
                case Some(purpose) => Some(Capture(purpose, tag.name, 1, ""))
                case None => None
  {
    hide PurposeAt, TextBetween, Collected;
    StartCollects(tokens, n);
    if Collected(tokens, n).Some? {
      TextNext(tokens, Collected(tokens, n).value, n);
    } else {
      NothingBetween(tokens, n);
    }
  }

  lemma NothingBetween(tokens: seq<Token>, n: nat)
    requires n < |tokens|
    ensures TextBetween(tokens, n, n + 1) == ""
  {
  }

  /** A start tag's steps, one after the other, on any scan outside templates. */
  lemma StartsInTurn(s: Scan, tag: Tag)
    requires WellFormed(s) && s.templates == 0 && !(tag.name == "template" && !tag.selfClosing)
    ensures var r := Start(s, tag);
            var opens := tag.name == "form" && !s.inForm;
            var control := tag.name in {"input", "select", "textarea", "button"};
            && r.forms == s.forms + (if opens then 1 else 0)
            && (r.inForm <==> tag.name == "form" || s.inForm)
            && r.action == (if opens then Attribute(tag, "action") else s.action)
            && r.formMethod == (if opens then Attribute(tag, "method") else s.formMethod)
            && r.controls ==
                 s.controls + (if control && IsNamed(tag) && s.inForm then [ControlFrom(tag)] else [])
            && r.labels == s.labels && r.errors == s.errors && r.templates == 0
            && r.tiles == s.tiles + (if TileIndex(tag).Some? then [TileFrom(tag, "")] else [])
            && (r.suspicious <==>
                 || s.suspicious || (tag.name == "form" && s.inForm)
                 || (control
                     && (Attribute(tag, "form").Some? || Attribute(tag, "formaction").Some?
                         || (IsNamed(tag) && !s.inForm))))
  {
    hide Element, Nest, ErrorElement, TileElement, TileFrom, ControlFrom, IsNamed, Attribute, TileIndex,
      WellFormed;
    NestOnly(s, tag);
    var nested := Nest(s, tag);
    ElementAdds(nested, tag);
    ErrorOnly(Element(nested, tag), tag);
    TileAdds(ErrorElement(Element(nested, tag), tag), tag);
  }

  lemma NestOnly(s: Scan, tag: Tag)
    requires WellFormed(s)
    ensures Nest(s, tag) == s.(capture := Nest(s, tag).capture) && WellFormed(Nest(s, tag))
  {
  }

  lemma ErrorOnly(s: Scan, tag: Tag)
    requires WellFormed(s)
    ensures var r := ErrorElement(s, tag); r == s.(capture := r.capture) && WellFormed(r)
  {
    hide Attribute, IsFieldError;
  }

  lemma TileAdds(s: Scan, tag: Tag)
    requires WellFormed(s)
    ensures var r := TileElement(s, tag);
            r == s.(capture := r.capture,
                    tiles := s.tiles + if TileIndex(tag).Some? then [TileFrom(tag, "")] else [])
  {
    hide Attribute, TileIndex, ToggleCredential;
    assert s.tiles + [] == s.tiles;
  }

  lemma ElementAdds(s: Scan, tag: Tag)
    requires WellFormed(s)
    ensures var r := Element(s, tag);
            var opens := tag.name == "form" && !s.inForm;
            var control := tag.name in {"input", "select", "textarea", "button"};
            && WellFormed(r)
            && r == s.(
                 forms := s.forms + (if opens then 1 else 0),
                 inForm := tag.name == "form" || s.inForm,
                 action := if opens then Attribute(tag, "action") else s.action,
                 formMethod := if opens then Attribute(tag, "method") else s.formMethod,
                 controls :=
                   s.controls + (if control && IsNamed(tag) && s.inForm then [ControlFrom(tag)] else []),
                 suspicious :=
                   || s.suspicious || (tag.name == "form" && s.inForm)
                   || (control
                       && (Attribute(tag, "form").Some? || Attribute(tag, "formaction").Some?
                           || (IsNamed(tag) && !s.inForm))),
                 capture := r.capture)
  {
    hide Attribute, Lower;
    assert s.controls + [] == s.controls;
  }

  lemma StartsCapture(s: Scan, tag: Tag)
    requires WellFormed(s) && s.templates == 0 && !(tag.name == "template" && !tag.selfClosing)
    ensures var id := Attribute(tag, "id");
            Start(s, tag).capture ==
              match s.capture
              case Some(c) =>
                if c.tag == tag.name && !tag.selfClosing then Some(c.(depth := c.depth + 1)) else Some(c)
              case None =>
                if tag.selfClosing then None
                else if tag.name == "label" && Attribute(tag, "for").Some? then
                  Some(Capture(LabelFor(Attribute(tag, "for").value), tag.name, 1, ""))
                else if id.Some? && IsFieldError(id.value) then
                  Some(Capture(FieldError, tag.name, 1, ""))
                else if TileIndex(tag).Some? && tag.name != "input" then
                  Some(Capture(TileText(|s.tiles|), tag.name, 1, ""))
                else None
  {
    hide Element, Nest, ErrorElement, TileElement, Attribute, TileIndex, WellFormed, IsFieldError;
    NestOnly(s, tag);
    var nested := Nest(s, tag);
    var added := Element(nested, tag);
    ElementAdds(nested, tag);
    ErrorOnly(added, tag);
    assert nested.capture == match s.capture
                             case Some(c) =>
                               if c.tag == tag.name && !tag.selfClosing then
                                 Some(c.(depth := c.depth + 1))
                               else Some(c)
                             case None => None by { NestCounts(s, tag); }
    ElementCaptures(nested, tag);
    ErrorCaptures(added, tag);
    TileCaptures(ErrorElement(added, tag), tag);
  }

  lemma NestCounts(s: Scan, tag: Tag)
    requires WellFormed(s)
    ensures Nest(s, tag).capture ==
            match s.capture
            case Some(c) =>
              if c.tag == tag.name && !tag.selfClosing then Some(c.(depth := c.depth + 1)) else Some(c)
            case None => None
  {
  }

  /** A capture that may begin, unless one is open or the tag closes itself. */
  function Begun(s: Scan, tag: Tag, target: Target): Option<Capture> {
    if s.capture.Some? || tag.selfClosing then s.capture else Some(Capture(target, tag.name, 1, ""))
  }

  lemma ElementCaptures(s: Scan, tag: Tag)
    requires WellFormed(s)
    ensures Element(s, tag).capture ==
            if tag.name == "label" && Attribute(tag, "for").Some? then
              Begun(s, tag, LabelFor(Attribute(tag, "for").value))
            else s.capture
    ensures Element(s, tag).tiles == s.tiles
  {
    hide Attribute, ControlOf;
  }

  lemma ErrorCaptures(s: Scan, tag: Tag)
    requires WellFormed(s)
    ensures var id := Attribute(tag, "id");
            ErrorElement(s, tag).capture ==
              if id.Some? && IsFieldError(id.value) then Begun(s, tag, FieldError) else s.capture
  {
    hide Attribute, IsFieldError;
  }

  lemma TileCaptures(s: Scan, tag: Tag)
    requires WellFormed(s)
    ensures TileElement(s, tag).capture ==
            if TileIndex(tag).Some? && tag.name != "input" then Begun(s, tag, TileText(|s.tiles|))
            else s.capture
  {
    hide Attribute, TileIndex, ToggleCredential;
  }

  lemma StartStep(tokens: seq<Token>, n: nat)
    requires n < |tokens| && Starts(tokens, n) && WellFormed(ScanOf(tokens, n))
    ensures Step(ScanOf(tokens, n), tokens[n]) == ScanOf(tokens, n + 1)
  {
    hide FormsBefore, InForm, LastFormAttribute, ControlsBefore, LabelsBefore, TilesFrom, ErrorsBefore,
      AnyOdd, CaptureAt, Templates, Start, WellFormed, TilesBefore, IsNamed, ControlFrom, TileFrom,
      Attribute, TileIndex, IsFieldError, Finishes;
    var s, tag := ScanOf(tokens, n), tokens[n].tag;
    StartKeeps(tokens, n);
    StartForm(tokens, n);
    StartControls(tokens, n);
    StartCaptures(tokens, n);
    StartsInTurn(s, tag);
    StartsCapture(s, tag);
  }

  // The whole page.

  lemma {:induction false} ScanFollows(tokens: seq<Token>, n: nat)
    requires n <= |tokens|
    ensures Scanned(tokens[..n]) == ScanOf(tokens, n)
  {
    hide ScanOf, Step, WellFormed;
    if n == 0 {
      assert tokens[..0] == [];
      NothingYields(tokens);
    } else {
      ScanFollows(tokens, n - 1);
      ScanIsWellFormed(tokens, n - 1);
      EmptyIsWellFormed();
      assert tokens[..n] == tokens[..n - 1] + [tokens[n - 1]];
      StepsSplit(EMPTY, tokens[..n - 1], [tokens[n - 1]]);
      var s := ScanOf(tokens, n - 1);
      assert [tokens[n - 1]][1..] == [];
      assert Steps(s, [tokens[n - 1]]) == Step(s, tokens[n - 1]);
      TokenSteps(tokens, n - 1);
    }
  }

  lemma EmptyIsWellFormed()
    ensures WellFormed(EMPTY)
  {
  }

  lemma NothingYields(tokens: seq<Token>)
    ensures ScanOf(tokens, 0) == EMPTY
  {
  }

  lemma TokenSteps(tokens: seq<Token>, n: nat)
    requires n < |tokens| && WellFormed(ScanOf(tokens, n))
    ensures Step(ScanOf(tokens, n), tokens[n]) == ScanOf(tokens, n + 1)
  {
    hide ScanOf, Step, WellFormed, Templates;
    if Starts(tokens, n) {
      StartStep(tokens, n);
    } else if tokens[n].EndTag? && Templates(tokens, n) == 0 {
      EndStep(tokens, n);
    } else {
      QuietStep(tokens, n);
    }
  }

  /** What a page's markup yields: the number of forms opened; the action and method
      attributes of the last tag that opened one; the named controls inside forms, in order; the labels,
      tiles and messages with the text up to their own end tags; and whether anything is odd. Nothing in
      a template counts. */
  ghost predicate Yields(tokens: seq<Token>, s: Scan) {
    var n := |tokens|;
    && s.forms == FormsBefore(tokens, n)
    && s.action == LastFormAttribute(tokens, n, "action")
    && s.formMethod == LastFormAttribute(tokens, n, "method")
    && s.controls == ControlsBefore(tokens, n)
    && s.labels == LabelsBefore(tokens, n)
    && s.tiles == TilesFrom(tokens, n, n)
    && s.errors == ErrorsBefore(tokens, n)
    && (s.suspicious <==> AnyOdd(tokens, n))
  }

  /** A page's scan is what its markup yields. */
  lemma ScanYields(tokens: seq<Token>)
    ensures Yields(tokens, Scanned(tokens))
  {
    hide Scanned, FormsBefore, LastFormAttribute, ControlsBefore, LabelsBefore, TilesFrom, ErrorsBefore,
      AnyOdd, InForm, CaptureAt, Templates;
    ScanFollows(tokens, |tokens|);
    assert tokens[..|tokens|] == tokens;
  }
}
