/** Which scans are pages that the login knows, said of what was collected. */
module PageKinds {
  import opened Common
  import opened Text
  import opened Pages
  import opened PageProofs

  // The parts of the judgement.

  /** A tag's attribute is the first of its name. */
  lemma AttributeMeans(tag: Tag, name: string, value: string)
    ensures Attribute(tag, name) == Some(value) <==>
            exists i :: 0 <= i < |tag.attributes| && tag.attributes[i] == (name, value)
              && forall j :: 0 <= j < i ==> tag.attributes[j].0 != name
  {
    FirstAttribute(tag.attributes, name, value);
  }

  predicate IsFirst(attributes: seq<(string, string)>, name: string, value: string, i: nat) {
    && i < |attributes| && attributes[i] == (name, value)
    && forall j :: 0 <= j < i ==> attributes[j].0 != name
  }

  lemma {:induction false} FirstAttribute(attributes: seq<(string, string)>, name: string, value: string)
    ensures FindAttribute(attributes, name) == Some(value) <==>
            exists i :: 0 <= i < |attributes| && attributes[i] == (name, value)
              && forall j :: 0 <= j < i ==> attributes[j].0 != name
  {
    if attributes != [] {
      var rest := attributes[1..];
      FirstAttribute(rest, name, value);
      if attributes[0].0 != name {
        if i :| 0 <= i < |rest| && rest[i] == (name, value)
               && forall j :: 0 <= j < i ==> rest[j].0 != name {
          assert IsFirst(attributes, name, value, i + 1);
        }
        if i :| 0 <= i < |attributes| && attributes[i] == (name, value)
               && forall j :: 0 <= j < i ==> attributes[j].0 != name {
          assert forall j :: 0 <= j < i - 1 ==> rest[j] == attributes[j + 1];
          assert IsFirst(rest, name, value, i - 1);
        }
      }
    }
  }

  /** The ids of messages about rejected fields. */
  lemma FieldErrorMeans(id: string)
    ensures IsFieldError(id) <==>
            || id == "input-error"
            || exists rest :: id == "input-error-" + rest && rest != "" && !("container-" <= rest)
  {
    if IsFieldError(id) && id != "input-error" {
      assert id == "input-error-" + id[12..];
    }
    if rest :| id == "input-error-" + rest && rest != "" && !("container-" <= rest) {
      assert id[12..] == rest;
    }
  }

  /** The numbers tiles carry in their ids. */
  lemma TileIndexMeans(tag: Tag, index: nat)
    ensures TileIndex(tag) == Some(index) <==>
            exists number ::
              Attribute(tag, "id") == Some("kc-otp-credential-" + number)
              && ParseUsize(number) == Some(index)
  {
    hide ParseUsize, Attribute;
    var id := Attribute(tag, "id");
    if TileIndex(tag) == Some(index) {
      assert id.value == "kc-otp-credential-" + id.value[18..];
    }
    if number :| id == Some("kc-otp-credential-" + number) && ParseUsize(number) == Some(index) {
      assert id.value[18..] == number;
    }
  }

  predicate HasControl(controls: seq<Control>, name: string) {
    exists c <- controls :: c.name == name
  }

  lemma HasMeans(s: Scan, name: string)
    ensures Has(s, name) <==> HasControl(s.controls, name)
  {
    if c :| c in s.controls && c.name == name {
      var i :| 0 <= i < |s.controls| && s.controls[i] == c;
    }
  }

  // The login page.

  /** A scan is a user name and password page exactly when nothing in it is odd and it has one form and
      no tiles; it has both controls, and none but those two, credentialId, rememberMe and login, each
      name once; and its error is the first message collected. */
  lemma LoginPageExactly(s: Scan, error: Option<string>)
    ensures Kind(s) == Some(UsernamePassword(error)) <==>
            && !s.suspicious && s.forms == 1 && s.tiles == []
            && HasControl(s.controls, "username") && HasControl(s.controls, "password")
            && (forall i :: 0 <= i < |s.controls| ==>
                 s.controls[i].name in {"username", "password", "credentialId", "rememberMe", "login"})
            && (forall i, j :: 0 <= j < i < |s.controls| ==> s.controls[j].name != s.controls[i].name)
            && error == if s.errors == [] then None else Some(s.errors[0])
  {
    hide Devices, Has, HasControl;
    HasMeans(s, "username");
    HasMeans(s, "password");
    HasMeans(s, "otp");
  }

  // The code page.

  /** The title's text: a tile's own, or for an input that of the first label for it. */
  predicate IsTitle(labels: seq<(string, string)>, tile: Tile, text: string) {
    if tile.isInput then
      exists i :: 0 <= i < |labels| && labels[i] == ("kc-otp-credential-" + Decimal(tile.index), text)
        && forall j :: 0 <= j < i ==> labels[j].0 != "kc-otp-credential-" + Decimal(tile.index)
    else text == tile.text
  }

  /** The device a tile stands for: its credential, under its cleaned title, neither of them empty. */
  ghost predicate IsDevice(labels: seq<(string, string)>, tile: Tile, device: OtpDevice) {
    && tile.credential == Some(device.id) && device.id != "" && device.title != ""
    && exists text :: IsTitle(labels, tile, text) && device.title == CleanLabel(text)
  }

  lemma {:induction false} FirstLabel(labels: seq<(string, string)>, element: string, text: string)
    ensures FindLabel(labels, element) == Some(text) <==>
            exists i :: 0 <= i < |labels| && labels[i] == (element, text)
              && forall j :: 0 <= j < i ==> labels[j].0 != element
  {
    if labels != [] {
      var rest := labels[1..];
      FirstLabel(rest, element, text);
      if labels[0].0 != element {
        if i :| 0 <= i < |rest| && rest[i] == (element, text)
               && forall j :: 0 <= j < i ==> rest[j].0 != element {
          assert IsFirst(labels, element, text, i + 1);
        }
        if i :| 0 <= i < |labels| && labels[i] == (element, text)
               && forall j :: 0 <= j < i ==> labels[j].0 != element {
          assert forall j :: 0 <= j < i - 1 ==> rest[j] == labels[j + 1];
          assert IsFirst(rest, element, text, i - 1);
        }
      }
    }
  }

  lemma DeviceMeans(labels: seq<(string, string)>, tile: Tile, device: OtpDevice)
    ensures DeviceOf(labels, tile) == Some(device) <==> IsDevice(labels, tile, device)
  {
    hide CleanLabel, Decimal, FindLabel;
    var element := "kc-otp-credential-" + Decimal(tile.index);
    forall text
      ensures FindLabel(labels, element) == Some(text) <==>
              exists i :: 0 <= i < |labels| && labels[i] == (element, text)
                && forall j :: 0 <= j < i ==> labels[j].0 != element
    {
      FirstLabel(labels, element, text);
    }
    if DeviceOf(labels, tile) == Some(device) {
      var text := if tile.isInput then FindLabel(labels, element).value else tile.text;
      assert IsTitle(labels, tile, text);
    }
  }

  function Selected(controls: seq<Control>): seq<Control> {
    if controls == [] then []
    else (if controls[0].name == "selectedCredentialId" then [controls[0]] else [])
         + Selected(controls[1..])
  }

  /** The page's choice agrees with its devices: no control and no device; or one hidden control, which
      holds one of the devices when there are any, and no tile is an input; or one radio for each device,
      in order, and every tile is an input. */
  predicate Choice(selected: seq<Control>, tiles: seq<Tile>, devices: seq<OtpDevice>) {
    || (selected == [] && devices == [])
    || (&& |selected| == 1 && selected[0].kind == "hidden"
        && (devices == [] || (selected[0].value in Ids(devices) && forall t <- tiles :: !t.isInput)))
    || (&& selected != [] && AllOf(selected, "radio")
        && |selected| == |devices|
        && (forall i :: 0 <= i < |selected| ==> selected[i].value == devices[i].id)
        && forall t <- tiles :: t.isInput)
  }

  /** The devices a scan offers: one for each tile, in the order of the tiles' numbers, which are 0 to
      n-1; no two of the same credential; and the page's own choice agrees with them. */
  ghost predicate Offers(s: Scan, devices: seq<OtpDevice>) {
    && Permuted(s.tiles) && |devices| == |s.tiles|
    && (forall i :: 0 <= i < |s.tiles| ==>
         IsDevice(s.labels, s.tiles[i], devices[s.tiles[i].index]))
    && (forall i, j :: 0 <= j < i < |devices| ==> devices[j].id != devices[i].id)
    && Choice(Selected(s.controls), s.tiles, devices)
  }

  predicate AllOf(controls: seq<Control>, kind: string) {
    forall i :: 0 <= i < |controls| ==> controls[i].kind == kind
  }

  lemma AllOfCons(c: Control, rest: seq<Control>, kind: string)
    ensures AllOf([c] + rest, kind) <==> c.kind == kind && AllOf(rest, kind)
  {
    var all := [c] + rest;
    assert forall i :: 0 <= i < |rest| ==> rest[i] == all[i + 1];
    assert all[0] == c;
  }

  function Values(controls: seq<Control>): seq<string> {
    seq(|controls|, i requires 0 <= i < |controls| => controls[i].value)
  }

  lemma {:induction false} SelectedCounts(controls: seq<Control>)
    ensures |Selected(controls)| == SelectedCount(controls)
  {
    if controls != [] {
      SelectedCounts(controls[1..]);
    }
  }

  /** The values of one kind are those of all the selected controls exactly when all are of that kind. */
  lemma {:induction false} SelectedOf(controls: seq<Control>, kind: string)
    ensures var values, selected := SelectedValues(controls, kind), Selected(controls);
            && |values| <= |selected|
            && (|values| == |selected| <==> AllOf(selected, kind))
            && (|values| == |selected| ==> values == Values(selected))
  {
    hide AllOf;
    if controls == [] {
      assert AllOf([], kind) by { NoneOf(kind); }
    } else {
      var c, rest := controls[0], Selected(controls[1..]);
      SelectedOf(controls[1..], kind);
      if c.name == "selectedCredentialId" {
        AllOfCons(c, rest, kind);
        assert Values([c] + rest) == [c.value] + Values(rest);
        SelectedFirst(controls, kind);
      } else {
        assert Selected(controls) == rest;
        assert SelectedValues(controls, kind) == SelectedValues(controls[1..], kind);
      }
    }
  }

  lemma SelectedFirst(controls: seq<Control>, kind: string)
    requires controls != [] && controls[0].name == "selectedCredentialId"
    ensures Selected(controls) == [controls[0]] + Selected(controls[1..])
    ensures SelectedValues(controls, kind) ==
            (if controls[0].kind == kind then [controls[0].value] else [])
            + SelectedValues(controls[1..], kind)
  {
  }

  lemma NoneOf(kind: string)
    ensures AllOf([], kind)
  {
  }

  lemma ChoiceMeans(controls: seq<Control>, tiles: seq<Tile>, devices: seq<OtpDevice>)
    ensures var radios, hidden := SelectedValues(controls, "radio"), SelectedValues(controls, "hidden");
            (|radios| + |hidden| == SelectedCount(controls)
             && Consistent(Ids(devices), radios, hidden, tiles))
            <==> Choice(Selected(controls), tiles, devices)
  {
    hide SelectedValues, Selected, SelectedCount;
    SelectedCounts(controls);
    SelectedKinds(controls);
    SelectedOf(controls, "radio");
    SelectedOf(controls, "hidden");
    var selected := Selected(controls);
    var radios, hidden := SelectedValues(controls, "radio"), SelectedValues(controls, "hidden");
    assert |Ids(devices)| == |devices|;
    ValuesAreIds(selected, devices);
    if |hidden| == 1 && |selected| == 1 {
      assert hidden[0] == selected[0].value;
    }
  }

  lemma ValuesAreIds(selected: seq<Control>, devices: seq<OtpDevice>)
    ensures Values(selected) == Ids(devices) <==>
            |selected| == |devices|
            && forall i :: 0 <= i < |selected| ==> selected[i].value == devices[i].id
  {
    assert forall i :: 0 <= i < |selected| ==> Values(selected)[i] == selected[i].value;
    assert forall i :: 0 <= i < |devices| ==> Ids(devices)[i] == devices[i].id;
  }

  /** Consistency does not depend on the order of the tiles. */
  lemma ChoiceMoves(selected: seq<Control>, a: seq<Tile>, b: seq<Tile>, devices: seq<OtpDevice>)
    requires multiset(a) == multiset(b)
    ensures Choice(selected, a, devices) <==> Choice(selected, b, devices)
  {
    forall t ensures t in a <==> t in b {
      assert t in multiset(a) <==> t in multiset(b);
    }
  }

  lemma {:induction false} DevicesFound(labels: seq<(string, string)>, tiles: seq<Tile>,
                                        devices: seq<OtpDevice>)
    ensures DevicesOf(labels, tiles) == Some(devices) <==>
            |devices| == |tiles|
            && forall i :: 0 <= i < |tiles| ==> DeviceOf(labels, tiles[i]) == Some(devices[i])
  {
    hide DeviceOf;
    if tiles != [] {
      if |devices| == |tiles|
         && forall i :: 0 <= i < |tiles| ==> DeviceOf(labels, tiles[i]) == Some(devices[i]) {
        DevicesFound(labels, tiles[1..], devices[1..]);
        assert devices == [devices[0]] + devices[1..];
      }
    }
  }

  /** The tiles sorted, each device is its own tile's. */
  lemma SortedDevices(labels: seq<(string, string)>, tiles: seq<Tile>, devices: seq<OtpDevice>)
    requires Permuted(tiles) && |devices| == |tiles|
    ensures (forall i :: 0 <= i < |tiles| ==>
              DeviceOf(labels, SortTiles(tiles)[i]) == Some(devices[i])) <==>
            (forall i :: 0 <= i < |tiles| ==>
              DeviceOf(labels, tiles[i]) == Some(devices[tiles[i].index]))
  {
    hide DeviceOf;
    var sorted := SortTiles(tiles);
    SortedNumbering(tiles);
    SortIsPermutation(tiles);
    if forall i :: 0 <= i < |tiles| ==> DeviceOf(labels, sorted[i]) == Some(devices[i]) {
      forall i | 0 <= i < |tiles| ensures DeviceOf(labels, tiles[i]) == Some(devices[tiles[i].index]) {
        assert tiles[i] in multiset(tiles);
        assert tiles[i] in sorted;
      }
    }
    if forall i :: 0 <= i < |tiles| ==> DeviceOf(labels, tiles[i]) == Some(devices[tiles[i].index]) {
      forall i | 0 <= i < |tiles| ensures DeviceOf(labels, sorted[i]) == Some(devices[i]) {
        assert sorted[i] in multiset(sorted);
        assert sorted[i] in tiles;
      }
    }
  }

  lemma OffersExactly(s: Scan, devices: seq<OtpDevice>)
    ensures Devices(s) == Some(devices) <==> Offers(s, devices)
  {
    hide DeviceOf, IsDevice, DevicesOf, SortTiles, Numbered, Permuted, Consistent, Choice, SelectedCount,
      SelectedValues, Selected;
    var sorted := SortTiles(s.tiles);
    SortedNumbering(s.tiles);
    SortIsPermutation(s.tiles);
    DevicesFound(s.labels, sorted, devices);
    ChoiceMeans(s.controls, sorted, devices);
    ChoiceMoves(Selected(s.controls), sorted, s.tiles, devices);
    forall tile, device
      ensures DeviceOf(s.labels, tile) == Some(device) <==> IsDevice(s.labels, tile, device)
    {
      DeviceMeans(s.labels, tile, device);
    }
    if Permuted(s.tiles) && |devices| == |s.tiles| {
      SortedDevices(s.labels, s.tiles, devices);
      NumbersFit(s.tiles);
    }
    assert Distinct(Ids(devices)) <==>
        forall i, j :: 0 <= j < i < |devices| ==> devices[j].id != devices[i].id by {
      IdsDiffer(devices);
    }
  }

  lemma NumbersFit(tiles: seq<Tile>)
    requires Permuted(tiles)
    ensures forall i :: 0 <= i < |tiles| ==> tiles[i].index < |tiles|
  {
  }

  lemma IdsDiffer(devices: seq<OtpDevice>)
    ensures Distinct(Ids(devices)) <==>
            forall i, j :: 0 <= j < i < |devices| ==> devices[j].id != devices[i].id
  {
    assert forall i :: 0 <= i < |devices| ==> Ids(devices)[i] == devices[i].id;
  }

  /** A scan is a one-time code page offering these devices exactly when nothing in it is odd and it has
      one form; it has an otp control, and none but that, selectedCredentialId and login; only device
      radios repeat a name; and it offers these devices. */
  lemma CodePageExactly(s: Scan, devices: seq<OtpDevice>)
    ensures Kind(s) == Some(OneTimeCode(devices)) <==>
            && !s.suspicious && s.forms == 1 && HasControl(s.controls, "otp")
            && (forall i :: 0 <= i < |s.controls| ==>
                 s.controls[i].name in {"otp", "selectedCredentialId", "login"})
            && (forall i, j :: 0 <= j < i < |s.controls| && s.controls[j].name == s.controls[i].name ==>
                 s.controls[i].name == "selectedCredentialId" && s.controls[i].kind == "radio")
            && Offers(s, devices)
  {
    hide Devices, Has, HasControl, Offers;
    HasMeans(s, "username");
    HasMeans(s, "password");
    HasMeans(s, "otp");
    OffersExactly(s, devices);
    if HasControl(s.controls, "password") {
      var i := ControlNamed(s.controls, "password");
    }
  }

  lemma ControlNamed(controls: seq<Control>, name: string) returns (i: nat)
    requires HasControl(controls, name)
    ensures i < |controls| && controls[i].name == name
  {
    var c :| c in controls && c.name == name;
    i :| i < |controls| && controls[i] == c;
  }
}
