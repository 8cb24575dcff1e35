/** The scanner object: one pass over a page's tokens, updating its fields in place. */
module Scanner {
  import opened Common
  import opened Text
  import opened Pages
  import Markup

  class Scanner {
    var forms: nat
    var inForm: bool
    var action: Option<string>
    var formMethod: Option<string>
    var controls: seq<Control>
    var labels: seq<(string, string)>
    var tiles: seq<Tile>
    var errors: seq<string>
    var capture: Option<Capture>
    var templates: nat
    var suspicious: bool

    ghost function View(): Scan
      reads this
    {
      Scan(forms, inForm, action, formMethod, controls, labels, tiles, errors, capture, templates,
           suspicious)
    }

    constructor ()
      ensures View() == EMPTY
    {
      forms, inForm, action, formMethod := 0, false, None, None;
      controls, labels, tiles, errors := [], [], [], [];
      capture, templates, suspicious := None, 0, false;
    }

    method Start(tag: Tag)
      requires WellFormed(View())
      modifies this
      ensures View() == Pages.Start(old(View()), tag) && WellFormed(View())
    {
      if tag.name == "template" && !tag.selfClosing {
        templates := templates + 1;
      }
      if templates > 0 {
        return;
      }
      Nest(tag);
      AddElement(tag);
      AddErrorElement(tag);
      AddTile(tag);
    }

    /** Count an element nested in the captured one under the same name. */
    method Nest(tag: Tag)
      requires WellFormed(View())
      modifies this`capture
      ensures View() == Pages.Nest(old(View()), tag)
    {
      if capture.Some? && capture.value.tag == tag.name && !tag.selfClosing {
        capture := Some(capture.value.(depth := capture.value.depth + 1));
      }
    }

    /** What an element's name alone asks for. */
    method AddElement(tag: Tag)
      requires WellFormed(View())
      modifies this
      ensures View() == Element(old(View()), tag)
    {
      if tag.name == "form" {
        if inForm {
          suspicious := true;
        } else {
          inForm := true;
          forms := forms + 1;
          action := Attribute(tag, "action");
          formMethod := Attribute(tag, "method");
        }
      } else if tag.name in {"input", "select", "textarea", "button"} {
        AddControl(tag);
      } else if tag.name == "label" {
        match Attribute(tag, "for")
        case Some(element) => Begin(LabelFor(element), tag.name, tag.selfClosing);
        case None =>
      }
    }

    method AddErrorElement(tag: Tag)
      requires WellFormed(View())
      modifies this
      ensures View() == ErrorElement(old(View()), tag)
    {
      var id := Attribute(tag, "id");
      if id.Some? && IsFieldError(id.value) {
        Begin(FieldError, tag.name, tag.selfClosing);
      }
    }

    /** The device tile an element may be. */
    method AddTile(tag: Tag)
      requires WellFormed(View())
      modifies this
      ensures View() == TileElement(old(View()), tag)
    {
      var index := TileIndex(tag);
      if index.Some? {
        var isInput := tag.name == "input";
        var credential;
        if isInput {
          credential := Attribute(tag, "value");
        } else {
          match Attribute(tag, "onclick")
          case Some(onclick) => credential := ToggleCredential(onclick, index.value);
          case None => credential := None;
        }
        tiles := tiles + [Tile(index.value, credential, isInput, "")];
        if !isInput {
          Begin(TileText(|tiles| - 1), tag.name, tag.selfClosing);
        }
      }
    }

    method AddControl(tag: Tag)
      requires WellFormed(View())
      modifies this
      ensures View() == Pages.AddControl(old(View()), tag)
    {
      if Attribute(tag, "form").Some? || Attribute(tag, "formaction").Some? {
        suspicious := true;
      }
      var name := Attribute(tag, "name");
      if name.None? || name.value == "" {
        return;
      }
      if !inForm {
        suspicious := true;
        return;
      }
      var kind := Attribute(tag, "type");
      var value := Attribute(tag, "value");
      var standard := if tag.name == "button" then "submit" else "text";
      controls := controls + [Control(
        name.value,
        if kind.Some? then Lower(kind.value) else standard,
        if value.Some? then value.value else "",
        Attribute(tag, "checked").Some?)];
    }

    method Begin(target: Target, tag: string, selfClosing: bool)
      requires WellFormed(View()) && (target.TileText? ==> target.tile < |tiles|)
      modifies this`capture
      ensures View() == Pages.Begin(old(View()), target, tag, selfClosing)
    {
      if capture.None? && !selfClosing {
        capture := Some(Capture(target, tag, 1, ""));
      }
    }

    method End(name: string)
      requires WellFormed(View())
      modifies this
      ensures View() == Pages.End(old(View()), name) && WellFormed(View())
    {
      if templates > 0 {
        if name == "template" {
          templates := templates - 1;
        }
        return;
      }
      if name == "form" {
        inForm := false;
      }
      var taken := capture;
      capture := None;
      if taken.None? || taken.value.tag != name {
        capture := taken;
        return;
      }
      var c := taken.value.(depth := taken.value.depth - 1);
      if c.depth > 0 {
        capture := Some(c);
        return;
      }
      match c.target
      case LabelFor(element) => labels := labels + [(element, c.text)];
      case TileText(i) => tiles := tiles[i := tiles[i].(text := c.text)];
      case FieldError =>
        var message := CleanLabel(c.text);
        if message != "" {
          errors := errors + [message];
        }
    }
  }

  /** One pass over a page: the scan is the fold of the tokens' steps, which is what the markup yields,
      and no step indexes a tile that is not there. */
  method Run(tokens: seq<Token>) returns (scan: Scan)
    ensures scan == Scanned(tokens)
    ensures Markup.Yields(tokens, scan)
  {
    Markup.ScanYields(tokens);
    var scanner := new Scanner();
    for i := 0 to |tokens|
      invariant WellFormed(scanner.View())
      invariant Steps(scanner.View(), tokens[i..]) == Scanned(tokens)
    {
      assert tokens[i..][1..] == tokens[i + 1..];
      match tokens[i]
      case StartTag(tag) => scanner.Start(tag);
      case EndTag(name) => scanner.End(name);
      case Characters(text) =>
        if scanner.templates == 0 && scanner.capture.Some? {
          var c := scanner.capture.value;
          scanner.capture := Some(c.(text := c.text + text));
        }
      case Ignored =>
    }
    scan := Scan(scanner.forms, scanner.inForm, scanner.action, scanner.formMethod,
                 scanner.controls, scanner.labels, scanner.tiles, scanner.errors, scanner.capture,
                 scanner.templates, scanner.suspicious);
  }
}
