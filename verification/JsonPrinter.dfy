/** Every value within the parser's limits has a JSON text, and every text printed for it, with
    any whitespace and any spelling of each character, is read back as the same value. */
module JsonPrinter {
  import opened Common
  import opened Utf8
  import opened JsonGrammar
  import opened JsonReading
  import opened JsonProofs

  /** Nesting within the limit, strings and keys well-formed UTF-8, and numbers the conversion
      can give. */
  ghost predicate Within(v: Value, depth: nat, convert: Convert) {
    && depth <= MAX_DEPTH
    && match v
       case Number(n) => exists text :: NumberText(text) && convert(text) == Some(n)
       case String(text) => WellFormed(text)
       case Array(items) => forall i :: 0 <= i < |items| ==> Within(items[i], depth + 1, convert)
       case Object(members) =>
         forall k <- members :: WellFormed(k) && Within(members[k], depth + 1, convert)
       case _ => true
  }

  lemma AppendHex(s: Bytes, b: byte)
    requires HexNumber(s).Some? && HexDigit(b).Some?
    ensures HexNumber(s + [b]) == Some(HexNumber(s).value * 16 + HexDigit(b).value)
  {
    assert (s + [b])[..|s|] == s;
  }

  /** A spelling of one character: itself where the grammar allows, an escape elsewhere. */
  lemma SpellScalar(c: Scalar) returns (u: Unit)
    ensures UnitScalar(u) == Some(c)
  {
    if c == QUOTE as int || c == BACKSLASH as int {
      u := Short(c, c);
    } else if c >= 0x20 {
      u := Plain(c);
    } else {
      var high: byte := 0x30 + c / 16;
      var low: byte := if c % 16 < 10 then 0x30 + c % 16 else 0x41 + c % 16 - 10;
      AppendHex([], 0x30);
      AppendHex([] + [0x30], 0x30);
      AppendHex([] + [0x30] + [0x30], high);
      AppendHex([] + [0x30] + [0x30] + [high], low);
      u := Hex([] + [0x30] + [0x30] + [high] + [low]);
    }
  }

  lemma {:induction false} SpellScalars(cs: seq<Scalar>) returns (units: seq<Unit>)
    ensures UnitsScalars(units) == Some(cs)
  {
    if cs == [] {
      units := [];
    } else {
      var u := SpellScalar(cs[0]);
      var more := SpellScalars(cs[1..]);
      units := [u] + more;
      assert units[1..] == more;
      assert cs == [cs[0]] + cs[1..];
    }
  }

  lemma SpellString(text: Bytes) returns (units: seq<Unit>)
    requires WellFormed(text)
    ensures StringValue(units) == Some(text)
  {
    DecodeAllEncodes(text);
    units := SpellScalars(DecodeAll(text));
  }

  lemma {:induction false} SpellValue(v: Value, depth: nat, convert: Convert) returns (doc: Doc)
    requires Within(v, depth, convert)
    ensures Denote(doc, depth, convert) == Some(v)
    decreases v, 2
  {
    match v
    case Null => doc := NullDoc;
    case Bool(b) => doc := if b then TrueDoc else FalseDoc;
    case Number(n) =>
      var text :| NumberText(text) && convert(text) == Some(n);
      doc := NumberDoc(text);
    case String(text) =>
      var units := SpellString(text);
      doc := StringDoc(units);
    case Array(items) =>
      if items == [] {
        doc := EmptyArray([]);
      } else {
        var spelled := SpellItems(v, 0, depth, convert);
        doc := ArrayDoc(spelled);
      }
    case Object(members) =>
      if members == map[] {
        doc := EmptyObject([]);
      } else {
        var spelled := SpellMembers(v, members, depth, convert);
        doc := ObjectDoc(spelled);
      }
  }

  lemma {:induction false} SpellItems(v: Value, i: nat, depth: nat, convert: Convert)
      returns (items: Items)
    requires v.Array? && i < |v.items| && Within(v, depth, convert)
    ensures DenoteItems(items, depth + 1, convert) == Some(v.items[i..])
    decreases v, 1, |v.items| - i
  {
    var doc := SpellValue(v.items[i], depth + 1, convert);
    if i + 1 == |v.items| {
      items := LastItem([], doc, []);
      assert v.items[i..] == [v.items[i]];
    } else {
      var more := SpellItems(v, i + 1, depth, convert);
      items := Item([], doc, [], more);
      assert v.items[i..] == [v.items[i]] + v.items[i + 1..];
    }
  }

  lemma MemberWithin(v: Value, k: Bytes, depth: nat, convert: Convert)
    requires v.Object? && k in v.members && Within(v, depth, convert)
    ensures WellFormed(k) && Within(v.members[k], depth + 1, convert)
    ensures depth <= MAX_DEPTH
  {
  }

  lemma {:induction false} SpellMembers(v: Value, part: map<Bytes, Value>, depth: nat,
                                        convert: Convert) returns (members: Members)
    requires v.Object? && Within(v, depth, convert) && part != map[]
    requires forall k <- part :: k in v.members && part[k] == v.members[k]
    ensures DenoteMembers(members, depth + 1, convert) == Some(part)
    decreases v, 1, |part|
  {
    hide Denote, Within, WellFormed;
    var k :| k in part;
    MemberWithin(v, k, depth, convert);
    var key := SpellString(k);
    var doc := SpellValue(v.members[k], depth + 1, convert);
    var others := part - {k};
    assert part == others[k := part[k]];
    if others == map[] {
      members := LastMember([], key, [], [], doc, []);
      assert part == map[k := part[k]];
    } else {
      assert others.Keys == part.Keys - {k};
      assert |others.Keys| < |part.Keys|;
      var more := SpellMembers(v, others, depth, convert);
      members := Member([], key, [], [], doc, [], more);
    }
  }

  /** Every value within the limits has a text, and reading that text gives the value back. */
  lemma EveryValueRoundTrips(v: Value, convert: Convert)
    requires ReadsNumbers(convert) && Within(v, 0, convert)
    ensures exists text :: Derives(text, v, convert) && ReadText(text, convert) == Some(v)
  {
    var doc := SpellValue(v, 0, convert);
    var text := [] + DocText(doc) + [];
    assert Blank([]);
    assert Derives(text, v, convert);
    TextReads(text, v, convert);
  }

  /** Values outside the limits have no text at all: whatever is read is within them. */
  lemma {:induction false} DenotedWithin(doc: Doc, depth: nat, convert: Convert)
    requires Denote(doc, depth, convert).Some?
    ensures Within(Denote(doc, depth, convert).value, depth, convert)
    decreases doc
  {
    match doc
    case NumberDoc(text) => assert NumberText(text) && convert(text).Some?;
    case StringDoc(units) => EncodeAllWellFormed(UnitsScalars(units).value);
    case ArrayDoc(items) => ItemsWithin(items, depth + 1, convert);
    case ObjectDoc(members) => MembersWithin(members, depth + 1, convert);
    case _ =>
  }

  lemma {:induction false} ItemsWithin(items: Items, depth: nat, convert: Convert)
    requires DenoteItems(items, depth, convert).Some?
    ensures forall v <- DenoteItems(items, depth, convert).value :: Within(v, depth, convert)
    decreases items
  {
    DenotedWithin(items.doc, depth, convert);
    if items.Item? {
      ItemsWithin(items.more, depth, convert);
    }
  }

  lemma {:induction false} MembersWithin(members: Members, depth: nat, convert: Convert)
    requires DenoteMembers(members, depth, convert).Some?
    ensures var m := DenoteMembers(members, depth, convert).value;
            forall k <- m :: WellFormed(k) && Within(m[k], depth, convert)
    decreases members
  {
    DenotedWithin(members.doc, depth, convert);
    EncodeAllWellFormed(UnitsScalars(members.key).value);
    if members.Member? {
      MembersWithin(members.more, depth, convert);
    }
  }
}
