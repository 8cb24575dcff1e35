/** What the page scanner collects, as values: tokens in, a scan out, and the page kind a scan
    is judged to be. */
module Pages {
  import opened Common
  import opened Text

  datatype Tag = Tag(name: string, selfClosing: bool, attributes: seq<(string, string)>)

  datatype Token = StartTag(tag: Tag) | EndTag(name: string) | Characters(text: string) | Ignored

  datatype OtpDevice = OtpDevice(id: string, title: string)

  datatype PageKind =
    | UsernamePassword(error: Option<string>)
    | OneTimeCode(devices: seq<OtpDevice>)

  datatype Control = Control(name: string, kind: string, value: string, checked: bool)

  datatype Tile = Tile(index: nat, credential: Option<string>, isInput: bool, text: string)

  datatype Target = LabelFor(element: string) | TileText(tile: nat) | FieldError

  datatype Capture = Capture(target: Target, tag: string, depth: nat, text: string)

  datatype Scan = Scan(
    forms: nat,
    inForm: bool,
    action: Option<string>,
    formMethod: Option<string>,
    controls: seq<Control>,
    labels: seq<(string, string)>,
    tiles: seq<Tile>,
    errors: seq<string>,
    capture: Option<Capture>,
    templates: nat,
    suspicious: bool)

  const EMPTY: Scan := Scan(0, false, None, None, [], [], [], [], None, 0, false)

  const DEVICE_ID_PREFIX: string := "kc-otp-credential-"
  const LOGIN_FIELDS: set<string> := {"username", "password", "credentialId", "rememberMe", "login"}
  const OTP_FIELDS: set<string> := {"otp", "selectedCredentialId", "login"}

  function FindAttribute(attributes: seq<(string, string)>, name: string): (r: Option<string>)
    ensures r.Some? ==> (name, r.value) in attributes
    ensures r.None? ==> forall v :: (name, v) !in attributes
  {
    if attributes == [] then None
    else if attributes[0].0 == name then Some(attributes[0].1)
    else FindAttribute(attributes[1..], name)
  }

  function Attribute(tag: Tag, name: string): Option<string> {
    FindAttribute(tag.attributes, name)
  }

  predicate IsFieldError(id: string) {
    || id == "input-error"
    || (match StripPrefix(id, "input-error-")
        case Some(rest) => rest != "" && !("container-" <= rest)
        case None => false)
  }

  /** The credential in a tile's `onclick="toggleOTP(<index>, '<id>')"`. */
  function ToggleCredential(onclick: string, index: nat): (r: Option<string>)
    ensures r.Some? ==> r.value != "" && '\'' !in r.value && '"' !in r.value && '\\' !in r.value
  {
    match StripPrefix(TrimEndOf(Trim(onclick), ';'), "toggleOTP(")
    case None => None
    case Some(call) =>
      match StripSuffix(call, ")")
      case None => None
      case Some(arguments) =>
        match SplitOnce(arguments, ',')
        case None => None
        case Some(parts) =>
          if ParseUsize(Trim(parts.0)) != Some(index) then None
          else Unquote(Trim(parts.1))
  }

  /** The text between two equal quotes, when it holds no quote or backslash itself. */
  function Unquote(s: string): (r: Option<string>)
    ensures r.Some? ==> r.value != "" && '\'' !in r.value && '"' !in r.value && '\\' !in r.value
  {
    if s == "" || (s[0] != '\'' && s[0] != '"') then None
    else
      match StripSuffix(s[1..], [s[0]])
      case None => None
      case Some(id) =>
        if id != "" && '\'' !in id && '"' !in id && '\\' !in id then Some(id) else None
  }

  function TileIndex(tag: Tag): Option<nat> {
    match Attribute(tag, "id")
    case None => None
    case Some(id) =>
      match StripPrefix(id, DEVICE_ID_PREFIX)
      case None => None
      case Some(number) => ParseUsize(number)
  }

  /** No capture's depth is zero, and a captured tile exists. */
  predicate WellFormed(s: Scan) {
    s.capture.Some? ==>
      && s.capture.value.depth >= 1
      && (s.capture.value.target.TileText? ==> s.capture.value.target.tile < |s.tiles|)
  }

  // The steps.

  function Begin(s: Scan, target: Target, tag: string, selfClosing: bool): (r: Scan)
    requires WellFormed(s) && (target.TileText? ==> target.tile < |s.tiles|)
    ensures WellFormed(r)
  {
    if s.capture.None? && !selfClosing then s.(capture := Some(Capture(target, tag, 1, "")))
    else s
  }

  function ControlOf(tag: Tag, name: string): Control {
    Control(
      name,
      match Attribute(tag, "type")
      case Some(kind) => Lower(kind)
      case None => if tag.name == "button" then "submit" else "text",
      match Attribute(tag, "value") case Some(value) => value case None => "",
      Attribute(tag, "checked").Some?)
  }

  function AddControl(s: Scan, tag: Tag): (r: Scan)
    requires WellFormed(s)
    ensures WellFormed(r)
  {
    var moved := Attribute(tag, "form").Some? || Attribute(tag, "formaction").Some?;
    var s1 := if moved then s.(suspicious := true) else s;
    match Attribute(tag, "name")
    case None => s1
    case Some(name) =>
      if name == "" then s1
      else if !s.inForm then s1.(suspicious := true)
      else s1.(controls := s.controls + [ControlOf(tag, name)])
  }

  function Nest(s: Scan, tag: Tag): (r: Scan)
    requires WellFormed(s)
    ensures WellFormed(r)
  {
    match s.capture
    case Some(c) =>
      if c.tag == tag.name && !tag.selfClosing then s.(capture := Some(c.(depth := c.depth + 1)))
      else s
    case None => s
  }

  function Element(s: Scan, tag: Tag): (r: Scan)
    requires WellFormed(s)
    ensures WellFormed(r)
  {
    if tag.name == "form" then
      if s.inForm then s.(suspicious := true)
      else s.(inForm := true, forms := s.forms + 1,
              action := Attribute(tag, "action"), formMethod := Attribute(tag, "method"))
    else if tag.name in {"input", "select", "textarea", "button"} then AddControl(s, tag)
    else if tag.name == "label" then
      match Attribute(tag, "for")
      case Some(element) => Begin(s, LabelFor(element), tag.name, tag.selfClosing)
      case None => s
    else s
  }

  function ErrorElement(s: Scan, tag: Tag): (r: Scan)
    requires WellFormed(s)
    ensures WellFormed(r)
  {
    match Attribute(tag, "id")
    case Some(id) =>
      if IsFieldError(id) then Begin(s, FieldError, tag.name, tag.selfClosing) else s
    case None => s
  }

  function TileElement(s: Scan, tag: Tag): (r: Scan)
    requires WellFormed(s)
    ensures WellFormed(r)
  {
    match TileIndex(tag)
    case None => s
    case Some(index) =>
      var isInput := tag.name == "input";
      var credential :=
        if isInput then Attribute(tag, "value")
        else
          match Attribute(tag, "onclick")
          case Some(onclick) => ToggleCredential(onclick, index)
          case None => None;
      var s1 := s.(tiles := s.tiles + [Tile(index, credential, isInput, "")]);
      if isInput then s1 else Begin(s1, TileText(|s.tiles|), tag.name, tag.selfClosing)
  }

  predicate OpensTemplate(tag: Tag) {
    tag.name == "template" && !tag.selfClosing
  }

  function Start(s: Scan, tag: Tag): (r: Scan)
    requires WellFormed(s)
    ensures WellFormed(r)
  {
    var s1 := if OpensTemplate(tag) then s.(templates := s.templates + 1) else s;
    if s1.templates > 0 then s1
    else TileElement(ErrorElement(Element(Nest(s1, tag), tag), tag), tag)
  }

  function CloseCapture(s: Scan, c: Capture): (r: Scan)
    requires c.target.TileText? ==> c.target.tile < |s.tiles|
    ensures |r.tiles| == |s.tiles| && r.capture == s.capture
  {
    match c.target
    case LabelFor(element) => s.(labels := s.labels + [(element, c.text)])
    case TileText(i) => s.(tiles := s.tiles[i := s.tiles[i].(text := c.text)])
    case FieldError =>
      var message := CleanLabel(c.text);
      if message == "" then s else s.(errors := s.errors + [message])
  }

  function End(s: Scan, name: string): (r: Scan)
    requires WellFormed(s)
    ensures WellFormed(r)
  {
    if s.templates > 0 then
      if name == "template" then s.(templates := s.templates - 1) else s
    else
      var s1 := if name == "form" then s.(inForm := false) else s;
      match s1.capture
      case Some(c) =>
        if c.tag != name then s1
        else if c.depth > 1 then s1.(capture := Some(c.(depth := c.depth - 1)))
        else CloseCapture(s1.(capture := None), c)
      case None => s1
  }

  function Hear(s: Scan, text: string): (r: Scan)
    requires WellFormed(s)
    ensures WellFormed(r)
  {
    if s.templates == 0 && s.capture.Some? then
      s.(capture := Some(s.capture.value.(text := s.capture.value.text + text)))
    else s
  }

  function Step(s: Scan, token: Token): (r: Scan)
    requires WellFormed(s)
    ensures WellFormed(r)
  {
    match token
    case StartTag(tag) => Start(s, tag)
    case EndTag(name) => End(s, name)
    case Characters(text) => Hear(s, text)
    case Ignored => s
  }

  function Steps(s: Scan, tokens: seq<Token>): (r: Scan)
    requires WellFormed(s)
    ensures WellFormed(r)
    decreases |tokens|
  {
    if tokens == [] then s else Steps(Step(s, tokens[0]), tokens[1..])
  }

  function Scanned(tokens: seq<Token>): Scan {
    Steps(EMPTY, tokens)
  }

  // The judgement.

  predicate Has(s: Scan, name: string) {
    exists i :: 0 <= i < |s.controls| && s.controls[i].name == name
  }

  predicate Only(s: Scan, allowed: set<string>) {
    forall i :: 0 <= i < |s.controls| ==> s.controls[i].name in allowed
  }

  predicate IsDeviceRadio(c: Control) {
    c.kind == "radio" && c.name == "selectedCredentialId"
  }

  predicate Unique(s: Scan) {
    forall i, j :: 0 <= j < i < |s.controls| && s.controls[j].name == s.controls[i].name ==>
      IsDeviceRadio(s.controls[i])
  }

  /** A stable sort of the tiles by index. */
  function SortTiles(tiles: seq<Tile>): (r: seq<Tile>)
    ensures |r| == |tiles|
  {
    if tiles == [] then [] else InsertTile(tiles[0], SortTiles(tiles[1..]))
  }

  function InsertTile(tile: Tile, sorted: seq<Tile>): (r: seq<Tile>)
    ensures |r| == |sorted| + 1
  {
    if sorted == [] || tile.index <= sorted[0].index then [tile] + sorted
    else [sorted[0]] + InsertTile(tile, sorted[1..])
  }

  predicate Numbered(tiles: seq<Tile>) {
    forall i :: 0 <= i < |tiles| ==> tiles[i].index == i
  }

  function FindLabel(labels: seq<(string, string)>, element: string): Option<string> {
    if labels == [] then None
    else if labels[0].0 == element then Some(labels[0].1)
    else FindLabel(labels[1..], element)
  }

  function DeviceOf(labels: seq<(string, string)>, tile: Tile): (r: Option<OtpDevice>)
    ensures r.Some? ==> tile.credential == Some(r.value.id) && r.value.id != "" && r.value.title != ""
  {
    if tile.credential.None? || tile.credential.value == "" then None
    else
      var text := if tile.isInput then FindLabel(labels, DEVICE_ID_PREFIX + Decimal(tile.index))
                  else Some(tile.text);
      if text.None? then None
      else
        var title := CleanLabel(text.value);
        if title == "" then None else Some(OtpDevice(tile.credential.value, title))
  }

  function DevicesOf(labels: seq<(string, string)>, tiles: seq<Tile>): (r: Option<seq<OtpDevice>>)
    ensures r.Some? ==> |r.value| == |tiles|
    ensures r.Some? ==> forall i :: 0 <= i < |tiles| ==>
                          DeviceOf(labels, tiles[i]) == Some(r.value[i])
  {
    if tiles == [] then Some([])
    else
      match (DeviceOf(labels, tiles[0]), DevicesOf(labels, tiles[1..]))
      case (Some(device), Some(devices)) => Some([device] + devices)
      case _ => None
  }

  function Ids(devices: seq<OtpDevice>): seq<string> {
    seq(|devices|, i requires 0 <= i < |devices| => devices[i].id)
  }

  predicate Distinct(ids: seq<string>) {
    forall i, j :: 0 <= j < i < |ids| ==> ids[j] != ids[i]
  }

  /** The values of the `selectedCredentialId` controls of one kind, in page order. */
  function SelectedValues(controls: seq<Control>, kind: string): seq<string> {
    if controls == [] then []
    else
      (if controls[0].name == "selectedCredentialId" && controls[0].kind == kind
       then [controls[0].value] else [])
      + SelectedValues(controls[1..], kind)
  }

  function SelectedCount(controls: seq<Control>): nat {
    if controls == [] then 0
    else (if controls[0].name == "selectedCredentialId" then 1 else 0) + SelectedCount(controls[1..])
  }

  /** The two themes' ways of offering a choice, and the page that offers none. */
  predicate Consistent(ids: seq<string>, radios: seq<string>, hidden: seq<string>, tiles: seq<Tile>) {
    if radios != [] then
      hidden == [] && radios == ids && forall t <- tiles :: t.isInput
    else if |hidden| == 1 then
      ids == [] || (hidden[0] in ids && forall t <- tiles :: !t.isInput)
    else
      hidden == [] && ids == []
  }

  function Devices(s: Scan): Option<seq<OtpDevice>> {
    var tiles := SortTiles(s.tiles);
    if !Numbered(tiles) then None
    else
      match DevicesOf(s.labels, tiles)
      case None => None
      case Some(devices) =>
        var ids := Ids(devices);
        var radios, hidden := SelectedValues(s.controls, "radio"), SelectedValues(s.controls, "hidden");
        if !Distinct(ids) || |radios| + |hidden| != SelectedCount(s.controls) then None
        else if Consistent(ids, radios, hidden, tiles) then Some(devices)
        else None
  }

  function Kind(s: Scan): Option<PageKind> {
    if s.suspicious || s.forms != 1 then None
    else if Has(s, "username") && Has(s, "password") then
      if Only(s, LOGIN_FIELDS) && Unique(s) && s.tiles == [] then
        Some(UsernamePassword(if s.errors == [] then None else Some(s.errors[0])))
      else None
    else if Has(s, "otp") && !Has(s, "password") && Only(s, OTP_FIELDS) && Unique(s) then
      match Devices(s) case Some(devices) => Some(OneTimeCode(devices)) case None => None
    else None
  }

  function Rejection(kind: PageKind): Option<string> {
    match kind
    case UsernamePassword(error) => error
    case OneTimeCode(_) => None
  }
}
