/** The parser's reading functions against the grammar, in both directions. */
module JsonProofs {
  import opened Common
  import opened Utf8
  import opened JsonGrammar
  import opened JsonReading
  import opened JsonStrings

  // Whitespace and numbers.

  lemma {:induction false} SkipNothing(s: Bytes)
    requires s == [] || !IsBlank(s[0])
    ensures SkipBlank(s) == s
  {
  }

  lemma {:induction false} SkipPast(gap: Bytes, rest: Bytes)
    requires Blank(gap)
    ensures SkipBlank(gap + rest) == SkipBlank(rest)
  {
    if gap == [] {
      assert gap + rest == rest;
    } else {
      SkipPast(gap[1..], rest);
      assert (gap + rest)[1..] == gap[1..] + rest;
    }
  }

  lemma SkipTo(gap: Bytes, rest: Bytes)
    requires Blank(gap) && rest != [] && !IsBlank(rest[0])
    ensures SkipBlank(gap + rest) == rest
  {
    SkipPast(gap, rest);
    SkipNothing(rest);
  }

  lemma {:induction false} BlankFront(s: Bytes) returns (gap: Bytes)
    ensures Blank(gap) && s == gap + SkipBlank(s)
  {
    if s != [] && IsBlank(s[0]) {
      var more := BlankFront(s[1..]);
      gap := [s[0]] + more;
    } else {
      gap := [];
    }
  }

  /** Every JSON number is a run of number bytes led by a minus or a digit, so a scan that takes
      all number bytes loses none of it. */
  lemma NumberBytes(s: Bytes)
    requires NumberText(s)
    ensures s != [] && (s[0] == 0x2D || IsDigit(s[0]))
    ensures forall j :: 0 <= j < |s| ==> IsNumberByte(s[j])
  {
    var m, i, f, e :|
      Minus(m) && IntegerPart(i) && Fraction(f) && Exponent(e) && s == m + i + f + e;
    assert forall j :: 0 <= j < |i| ==> IsNumberByte(i[j]);
    FractionBytes(f);
    ExponentBytes(e);
  }

  lemma FractionBytes(f: Bytes)
    requires Fraction(f)
    ensures forall j :: 0 <= j < |f| ==> IsNumberByte(f[j])
  {
    if f != [] {
      assert forall j :: 1 <= j < |f| ==> f[j] == f[1..][j - 1];
    }
  }

  lemma ExponentBytes(e: Bytes)
    requires Exponent(e)
    ensures forall j :: 0 <= j < |e| ==> IsNumberByte(e[j])
  {
    if e != [] {
      if Digits(e[1..]) {
        assert forall j :: 1 <= j < |e| ==> e[j] == e[1..][j - 1];
      } else {
        assert forall j :: 2 <= j < |e| ==> e[j] == e[2..][j - 2];
      }
    }
  }

  lemma {:induction false} NumberRunTakes(text: Bytes, rest: Bytes)
    requires forall j :: 0 <= j < |text| ==> IsNumberByte(text[j])
    requires rest == [] || !IsNumberByte(rest[0])
    ensures NumberRun(text + rest) == |text|
  {
    if text == [] {
      assert text + rest == rest;
    } else {
      NumberRunTakes(text[1..], rest);
      assert (text + rest)[1..] == text[1..] + rest;
    }
  }

  // Completeness.

  /** A number runs to the first byte that no number contains. */
  predicate Delimited(doc: Doc, rest: Bytes) {
    doc.NumberDoc? ==> rest == [] || !IsNumberByte(rest[0])
  }

  lemma DocStart(doc: Doc, depth: nat, convert: Convert)
    requires Denote(doc, depth, convert).Some?
    ensures var t := DocText(doc);
            && t != [] && !IsBlank(t[0]) && t[0] != CLOSE_BRACKET && t[0] != CLOSE_BRACE
  {
    if doc.NumberDoc? {
      NumberBytes(doc.text);
    }
  }

  lemma LiteralComplete(doc: Doc, rest: Bytes, depth: nat, convert: Convert)
    requires depth <= MAX_DEPTH && (doc.NullDoc? || doc.TrueDoc? || doc.FalseDoc?)
    ensures ReadValue(DocText(doc) + rest, depth, convert)
         == Got(Denote(doc, depth, convert).value, rest)
  {
    var t := DocText(doc);
    SkipNothing(t + rest);
    assert t <= t + rest && (t + rest)[|t|..] == rest;
  }

  lemma NumberComplete(text: Bytes, rest: Bytes, depth: nat, convert: Convert)
    requires depth <= MAX_DEPTH && NumberText(text) && convert(text).Some?
    requires rest == [] || !IsNumberByte(rest[0])
    ensures ReadValue(text + rest, depth, convert) == Got(Number(convert(text).value), rest)
  {
    NumberBytes(text);
    NumberRunTakes(text, rest);
    var s := text + rest;
    assert s[0] == text[0];
    SkipNothing(s);
    assert s[..|text|] == text && s[|text|..] == rest;
  }

  lemma StringDocComplete(units: seq<Unit>, rest: Bytes, depth: nat, convert: Convert)
    requires depth <= MAX_DEPTH && StringValue(units).Some?
    ensures ReadValue(StringText(units) + rest, depth, convert)
         == Got(String(StringValue(units).value), rest)
  {
    SkipNothing(StringText(units) + rest);
    StringComplete(units, rest);
  }

  lemma ArrayComplete(s: Bytes, depth: nat, convert: Convert)
    requires depth <= MAX_DEPTH
    ensures ReadValue([OPEN_BRACKET] + s, depth, convert) == ReadArray(s, depth, convert)
  {
    SkipNothing([OPEN_BRACKET] + s);
    assert ([OPEN_BRACKET] + s)[1..] == s;
  }

  lemma ObjectComplete(s: Bytes, depth: nat, convert: Convert)
    requires depth <= MAX_DEPTH
    ensures ReadValue([OPEN_BRACE] + s, depth, convert) == ReadObject(s, depth, convert)
  {
    SkipNothing([OPEN_BRACE] + s);
    assert ([OPEN_BRACE] + s)[1..] == s;
  }

  lemma EmptyComplete(gap: Bytes, rest: Bytes, depth: nat, convert: Convert)
    requires Blank(gap)
    ensures ReadArray(gap + [CLOSE_BRACKET] + rest, depth, convert) == Got(Array([]), rest)
    ensures ReadObject(gap + [CLOSE_BRACE] + rest, depth, convert) == Got(Object(map[]), rest)
  {
    assert gap + [CLOSE_BRACKET] + rest == gap + ([CLOSE_BRACKET] + rest);
    SkipTo(gap, [CLOSE_BRACKET] + rest);
    assert gap + [CLOSE_BRACE] + rest == gap + ([CLOSE_BRACE] + rest);
    SkipTo(gap, [CLOSE_BRACE] + rest);
  }

  lemma SkipBeforeValue(s: Bytes, depth: nat, convert: Convert)
    ensures ReadValue(SkipBlank(s), depth, convert) == ReadValue(s, depth, convert)
  {
    SkipNothing(SkipBlank(s));
  }

  lemma SkipBeforeItems(s: Bytes, depth: nat, convert: Convert)
    ensures ReadItems(SkipBlank(s), depth, convert) == ReadItems(s, depth, convert)
  {
    SkipBeforeValue(s, depth + 1, convert);
  }

  /** Every well-formed tree within the limits is read back as its value, whatever whitespace
      stands before it and whatever text follows. */
  lemma {:induction false} ValueComplete(before: Bytes, doc: Doc, rest: Bytes, depth: nat,
                                         convert: Convert)
    requires Blank(before) && Denote(doc, depth, convert).Some? && Delimited(doc, rest)
    ensures ReadValue(before + (DocText(doc) + rest), depth, convert)
         == Got(Denote(doc, depth, convert).value, rest)
    decreases doc, 1
  {
    DocComplete(doc, rest, depth, convert);
    SkipPast(before, DocText(doc) + rest);
    SkipBeforeValue(before + (DocText(doc) + rest), depth, convert);
    SkipBeforeValue(DocText(doc) + rest, depth, convert);
  }

  lemma {:induction false} DocComplete(doc: Doc, rest: Bytes, depth: nat, convert: Convert)
    requires Denote(doc, depth, convert).Some? && Delimited(doc, rest)
    ensures ReadValue(DocText(doc) + rest, depth, convert)
         == Got(Denote(doc, depth, convert).value, rest)
    decreases doc, 0
  {
    hide ReadValue, ReadItems, ReadMembers, SkipBlank, MembersText, ItemsText;
    match doc
    case NumberDoc(text) => NumberComplete(text, rest, depth, convert);
    case StringDoc(units) => StringDocComplete(units, rest, depth, convert);
    case EmptyArray(gap) =>
      EmptyComplete(gap, rest, depth, convert);
      ArrayComplete(gap + [CLOSE_BRACKET] + rest, depth, convert);
      assert DocText(doc) + rest == [OPEN_BRACKET] + (gap + [CLOSE_BRACKET] + rest);
    case ArrayDoc(items) =>
      ItemsComplete(items, rest, depth, convert);
      ItemsStart(items, rest, depth, convert);
      ArrayBodyComplete(ItemsText(items), rest, depth,
                        DenoteItems(items, depth + 1, convert).value, convert);
    case EmptyObject(gap) =>
      EmptyComplete(gap, rest, depth, convert);
      ObjectComplete(gap + [CLOSE_BRACE] + rest, depth, convert);
      assert DocText(doc) + rest == [OPEN_BRACE] + (gap + [CLOSE_BRACE] + rest);
    case ObjectDoc(members) =>
      MembersComplete(members, rest, depth, map[], convert);
      MembersStart(members, rest);
      ObjectBodyComplete(MembersText(members), rest, depth,
                         DenoteMembers(members, depth + 1, convert).value, convert);
    case _ => LiteralComplete(doc, rest, depth, convert);
  }

  lemma ItemsStart(items: Items, rest: Bytes, depth: nat, convert: Convert)
    requires DenoteItems(items, depth + 1, convert).Some?
    ensures !StartsWith(SkipBlank(ItemsText(items) + rest), CLOSE_BRACKET)
  {
    DocStart(items.doc, depth + 1, convert);
    var tail := if items.LastItem? then items.after + [CLOSE_BRACKET]
                else items.after + [COMMA] + ItemsText(items.more);
    assert ItemsText(items) + rest == items.before + (DocText(items.doc) + tail + rest);
    SkipTo(items.before, DocText(items.doc) + tail + rest);
  }

  lemma MembersStart(members: Members, rest: Bytes)
    requires Blank(members.before)
    ensures !StartsWith(SkipBlank(MembersText(members) + rest), CLOSE_BRACE)
  {
    MembersSplit(members, rest);
    SkipTo(members.before, StringText(members.key) + MemberAfterKey(members, rest));
  }

  lemma ArrayBodyComplete(body: Bytes, rest: Bytes, depth: nat, values: seq<Value>, convert: Convert)
    requires depth <= MAX_DEPTH && !StartsWith(SkipBlank(body + rest), CLOSE_BRACKET)
    requires ReadItems(body + rest, depth, convert) == Got(values, rest)
    ensures ReadValue(([OPEN_BRACKET] + body) + rest, depth, convert) == Got(Array(values), rest)
  {
    ArrayComplete(body + rest, depth, convert);
    SkipBeforeItems(body + rest, depth, convert);
    Regroup([OPEN_BRACKET], body, rest);
  }

  lemma ObjectBodyComplete(body: Bytes, rest: Bytes, depth: nat, m: map<Bytes, Value>,
                           convert: Convert)
    requires depth <= MAX_DEPTH && !StartsWith(SkipBlank(body + rest), CLOSE_BRACE)
    requires ReadMembers(SkipBlank(body + rest), depth, map[], convert) == Got(map[] + m, rest)
    ensures ReadValue(([OPEN_BRACE] + body) + rest, depth, convert) == Got(Object(m), rest)
  {
    assert map[] + m == m;
    ObjectComplete(body + rest, depth, convert);
    Regroup([OPEN_BRACE], body, rest);
  }

  /** After a value: optional whitespace, then the byte that decides what comes next. */
  lemma AfterValue(after: Bytes, mark: byte, more: Bytes, doc: Doc)
    requires Blank(after) && !IsBlank(mark) && !IsNumberByte(mark)
    ensures SkipBlank(after + [mark] + more) == [mark] + more
    ensures Delimited(doc, after + [mark] + more)
  {
    assert after + [mark] + more == after + ([mark] + more);
    SkipTo(after, [mark] + more);
  }

  lemma {:induction false} ItemsComplete(items: Items, rest: Bytes, depth: nat, convert: Convert)
    requires DenoteItems(items, depth + 1, convert).Some?
    ensures ReadItems(ItemsText(items) + rest, depth, convert)
         == Got(DenoteItems(items, depth + 1, convert).value, rest)
    decreases items
  {
    hide DocText, Denote, ReadValue;
    match items
    case LastItem(before, doc, after) =>
      AfterValue(after, CLOSE_BRACKET, rest, doc);
      var tail := after + [CLOSE_BRACKET] + rest;
      Regroup(after, [CLOSE_BRACKET], rest);
      ItemNest(before, DocText(doc), after, [CLOSE_BRACKET], rest);
      ValueComplete(before, doc, tail, depth + 1, convert);
    case Item(before, doc, after, more) =>
      AfterValue(after, COMMA, ItemsText(more) + rest, doc);
      var tail := after + [COMMA] + (ItemsText(more) + rest);
      Regroup(after, [COMMA], ItemsText(more) + rest);
      Regroup(after, [COMMA], ItemsText(more));
      Regroup([COMMA], ItemsText(more), rest);
      ItemNest(before, DocText(doc), after, [COMMA] + ItemsText(more), rest);
      ValueComplete(before, doc, tail, depth + 1, convert);
      ItemsComplete(more, rest, depth, convert);
      assert ([COMMA] + (ItemsText(more) + rest))[1..] == ItemsText(more) + rest;
  }

  /** What the text of the members is after the first member's value. */
  function MemberTail(members: Members, rest: Bytes): Bytes {
    match members
    case LastMember(_, _, _, _, _, after) => after + [CLOSE_BRACE] + rest
    case Member(_, _, _, _, _, after, more) => after + [COMMA] + (MembersText(more) + rest)
  }

  function MemberValue(members: Members, rest: Bytes): Bytes {
    members.gap + (DocText(members.doc) + MemberTail(members, rest))
  }

  function MemberAfterKey(members: Members, rest: Bytes): Bytes {
    members.afterKey + ([COLON] + MemberValue(members, rest))
  }

  lemma MembersSplit(members: Members, rest: Bytes)
    ensures MembersText(members) + rest ==
            members.before + (StringText(members.key) + MemberAfterKey(members, rest))
  {
    hide DocText, StringText;
    var m := members;
    var mark := if m.LastMember? then [CLOSE_BRACE] else [COMMA] + MembersText(m.more);
    var t1 := m.after + mark;
    assert t1 + rest == MemberTail(m, rest);
    var t2 := DocText(m.doc) + t1;
    Regroup(DocText(m.doc), t1, rest);
    var t3 := m.gap + t2;
    Regroup(m.gap, t2, rest);
    Regroup([COLON], t3, rest);
    var t4 := [COLON] + t3;
    Regroup(m.afterKey, t4, rest);
    var t5 := m.afterKey + t4;
    Regroup(StringText(m.key), t5, rest);
    var t6 := StringText(m.key) + t5;
    Regroup(m.before, t6, rest);
  }

  lemma KeyComplete(members: Members, rest: Bytes)
    requires MemberGaps(members) && StringValue(members.key).Some?
    ensures ReadString(SkipBlank(MembersText(members) + rest))
         == Got(StringValue(members.key).value, MemberAfterKey(members, rest))
    ensures StartsWith(SkipBlank(MemberAfterKey(members, rest)), COLON)
    ensures SkipBlank(MemberAfterKey(members, rest))[1..] == MemberValue(members, rest)
  {
    MembersSplit(members, rest);
    SkipTo(members.before, StringText(members.key) + MemberAfterKey(members, rest));
    StringComplete(members.key, MemberAfterKey(members, rest));
    SkipTo(members.afterKey, [COLON] + MemberValue(members, rest));
    assert ([COLON] + MemberValue(members, rest))[1..] == MemberValue(members, rest);
  }

  /** One turn of the member loop, from the facts its reads established. */
  lemma MemberTurn(s: Bytes, depth: nat, seen: map<Bytes, Value>, convert: Convert,
                   key: Bytes, afterKey: Bytes, v: Value, tail: Bytes, mark: byte, more: Bytes)
    requires ReadString(s) == Got(key, afterKey) && key !in seen
    requires StartsWith(SkipBlank(afterKey), COLON)
    requires ReadValue(SkipBlank(afterKey)[1..], depth + 1, convert) == Got(v, tail)
    requires SkipBlank(tail) == [mark] + more
    ensures mark == CLOSE_BRACE ==>
              ReadMembers(s, depth, seen, convert) == Got(seen[key := v], more)
    ensures mark == COMMA ==>
              ReadMembers(s, depth, seen, convert) ==
              ReadMembers(SkipBlank(more), depth, seen[key := v], convert)
  {
    assert ([mark] + more)[1..] == more;
  }

  lemma AddFirst(seen: map<Bytes, Value>, key: Bytes, v: Value, others: map<Bytes, Value>)
    requires key !in others
    ensures seen[key := v] + others == seen + others[key := v]
  {
  }

  lemma {:induction false} MembersComplete(members: Members, rest: Bytes, depth: nat,
                                           seen: map<Bytes, Value>, convert: Convert)
    requires DenoteMembers(members, depth + 1, convert).Some?
    requires DenoteMembers(members, depth + 1, convert).value.Keys !! seen.Keys
    ensures ReadMembers(SkipBlank(MembersText(members) + rest), depth, seen, convert)
         == Got(seen + DenoteMembers(members, depth + 1, convert).value, rest)
    decreases members
  {
    hide ReadMembers, ReadValue, ReadString, SkipBlank, DocText, StringText;
    var s := SkipBlank(MembersText(members) + rest);
    var key := StringValue(members.key).value;
    var v := Denote(members.doc, depth + 1, convert).value;
    var all := DenoteMembers(members, depth + 1, convert).value;
    assert key in all;
    var afterKey, tail := MemberAfterKey(members, rest), MemberTail(members, rest);
    KeyComplete(members, rest);
    match members
    case LastMember(_, _, _, gap, doc, after) =>
      AfterValue(after, CLOSE_BRACE, rest, doc);
      ValueComplete(gap, doc, tail, depth + 1, convert);
      MemberTurn(s, depth, seen, convert, key, afterKey, v, tail, CLOSE_BRACE, rest);
      assert seen[key := v] == seen + all;
    case Member(_, _, _, gap, doc, after, more) =>
      AfterValue(after, COMMA, MembersText(more) + rest, doc);
      ValueComplete(gap, doc, tail, depth + 1, convert);
      MemberTurn(s, depth, seen, convert, key, afterKey, v, tail, COMMA, MembersText(more) + rest);
      var others := DenoteMembers(more, depth + 1, convert).value;
      assert others.Keys <= all.Keys;
      AddFirst(seen, key, v, others);
      MembersComplete(more, rest, depth, seen[key := v], convert);
  }

  // Soundness.

  /** The text read so far, the blanks before a mark, the mark, and the rest. */
  lemma ReadMark(s: Bytes) returns (gap: Bytes)
    requires SkipBlank(s) != []
    ensures Blank(gap) && s == gap + ([SkipBlank(s)[0]] + SkipBlank(s)[1..])
  {
    gap := BlankFront(s);
    assert SkipBlank(s) == [SkipBlank(s)[0]] + SkipBlank(s)[1..];
  }

  lemma NumberSound(t: Bytes, depth: nat, convert: Convert) returns (doc: Doc)
    requires ReadsNumbers(convert) && depth <= MAX_DEPTH && t != [] && IsNumberByte(t[0])
    requires ReadNumber(t, convert).Got?
    ensures t == DocText(doc) + ReadNumber(t, convert).rest
    ensures Denote(doc, depth, convert) == Some(ReadNumber(t, convert).value)
  {
    doc := NumberDoc(t[..NumberRun(t)]);
  }

  lemma LiteralSound(t: Bytes, depth: nat, convert: Convert) returns (doc: Doc)
    requires ReadValue(t, depth, convert).Got? && SkipBlank(t) == t
    requires StartsWith(t, 0x74) || StartsWith(t, 0x66) || StartsWith(t, 0x6E)
    ensures t == DocText(doc) + ReadValue(t, depth, convert).rest
    ensures Denote(doc, depth, convert) == Some(ReadValue(t, depth, convert).value)
  {
    doc := if t[0] == 0x74 then TrueDoc else if t[0] == 0x66 then FalseDoc else NullDoc;
    SplitAt(t, |DocText(doc)|);
  }

  lemma LeafSound(t: Bytes, depth: nat, convert: Convert) returns (doc: Doc)
    requires ReadsNumbers(convert) && ReadValue(t, depth, convert).Got? && SkipBlank(t) == t
    requires t[0] != OPEN_BRACE && t[0] != OPEN_BRACKET
    ensures t == DocText(doc) + ReadValue(t, depth, convert).rest
    ensures Denote(doc, depth, convert) == Some(ReadValue(t, depth, convert).value)
  {
    if t[0] == QUOTE {
      var units := StringSound(t);
      doc := StringDoc(units);
    } else if t[0] == 0x74 || t[0] == 0x66 || t[0] == 0x6E {
      doc := LiteralSound(t, depth, convert);
    } else {
      doc := NumberSound(t, depth, convert);
    }
  }

  /** Every value read is spelled by a well-formed tree within the limits. */
  lemma {:induction false} ValueSound(s: Bytes, depth: nat, convert: Convert)
      returns (before: Bytes, doc: Doc)
    requires ReadsNumbers(convert) && ReadValue(s, depth, convert).Got?
    ensures Blank(before) && s == before + (DocText(doc) + ReadValue(s, depth, convert).rest)
    ensures Denote(doc, depth, convert) == Some(ReadValue(s, depth, convert).value)
    decreases |s|, 6
  {
    before := BlankFront(s);
    SkipBeforeValue(s, depth, convert);
    SkipNothing(SkipBlank(s));
    doc := DocSound(SkipBlank(s), depth, convert);
  }

  lemma {:induction false} DocSound(t: Bytes, depth: nat, convert: Convert) returns (doc: Doc)
    requires ReadsNumbers(convert) && ReadValue(t, depth, convert).Got? && SkipBlank(t) == t
    ensures t == DocText(doc) + ReadValue(t, depth, convert).rest
    ensures Denote(doc, depth, convert) == Some(ReadValue(t, depth, convert).value)
    decreases |t|, 5
  {
    if t[0] == OPEN_BRACE {
      doc := ObjectSound(t[1..], depth, convert);
      SplitAt(t, 1);
    } else if t[0] == OPEN_BRACKET {
      doc := ArraySound(t[1..], depth, convert);
      SplitAt(t, 1);
    } else {
      doc := LeafSound(t, depth, convert);
    }
  }

  lemma {:induction false} ArraySound(s: Bytes, depth: nat, convert: Convert) returns (doc: Doc)
    requires ReadsNumbers(convert) && depth <= MAX_DEPTH && ReadArray(s, depth, convert).Got?
    ensures [OPEN_BRACKET] + s == DocText(doc) + ReadArray(s, depth, convert).rest
    ensures Denote(doc, depth, convert) == Some(ReadArray(s, depth, convert).value)
    decreases |s|, 8
  {
    if StartsWith(SkipBlank(s), CLOSE_BRACKET) {
      var gap := ReadMark(s);
      doc := EmptyArray(gap);
    } else {
      SkipBeforeItems(s, depth, convert);
      var items := ItemsSound(s, depth, convert);
      doc := ArrayDoc(items);
    }
  }

  lemma ItemNest(before: Bytes, doc: Bytes, after: Bytes, last: Bytes, rest: Bytes)
    ensures before + (doc + (after + (last + rest))) == (before + doc + (after + last)) + rest
  {
    Regroup(before + doc, after + last, rest);
    Regroup(after, last, rest);
    Regroup(before, doc, after + (last + rest));
  }

  lemma ItemJoin(before: Bytes, doc: Doc, after: Bytes, items: Items, rest: Bytes)
    ensures before + (DocText(doc) + (after + ([CLOSE_BRACKET] + rest)))
         == ItemsText(LastItem(before, doc, after)) + rest
    ensures before + (DocText(doc) + (after + ([COMMA] + (ItemsText(items) + rest))))
         == ItemsText(Item(before, doc, after, items)) + rest
  {
    hide DocText;
    ItemNest(before, DocText(doc), after, [CLOSE_BRACKET], rest);
    ItemNest(before, DocText(doc), after, [COMMA] + ItemsText(items), rest);
    Regroup([COMMA], ItemsText(items), rest);
    Regroup(after, [COMMA], ItemsText(items));
  }

  lemma {:induction false} ItemsSound(s: Bytes, depth: nat, convert: Convert) returns (items: Items)
    requires ReadsNumbers(convert) && ReadItems(s, depth, convert).Got?
    ensures s == ItemsText(items) + ReadItems(s, depth, convert).rest
    ensures DenoteItems(items, depth + 1, convert) == Some(ReadItems(s, depth, convert).value)
    decreases |s|, 7
  {
    var before, doc := ValueSound(s, depth + 1, convert);
    var rest := ReadValue(s, depth + 1, convert).rest;
    var after := ReadMark(rest);
    var t := SkipBlank(rest);
    if t[0] == CLOSE_BRACKET {
      items := LastItem(before, doc, after);
      ItemJoin(before, doc, after, items, t[1..]);
    } else {
      var more := ItemsSound(t[1..], depth, convert);
      items := Item(before, doc, after, more);
      ItemJoin(before, doc, after, more, ReadItems(t[1..], depth, convert).rest);
    }
  }

  lemma EmptyObjectSound(s: Bytes, depth: nat, convert: Convert) returns (doc: Doc)
    requires depth <= MAX_DEPTH && StartsWith(SkipBlank(s), CLOSE_BRACE)
    ensures [OPEN_BRACE] + s == DocText(doc) + SkipBlank(s)[1..]
    ensures Denote(doc, depth, convert) == Some(Object(map[]))
  {
    var gap := ReadMark(s);
    doc := EmptyObject(gap);
    assert [OPEN_BRACE] + gap + [CLOSE_BRACE] + SkipBlank(s)[1..]
        == [OPEN_BRACE] + (gap + ([CLOSE_BRACE] + SkipBlank(s)[1..]));
  }

  lemma {:induction false} ObjectSound(s: Bytes, depth: nat, convert: Convert) returns (doc: Doc)
    requires ReadsNumbers(convert) && depth <= MAX_DEPTH && ReadObject(s, depth, convert).Got?
    ensures [OPEN_BRACE] + s == DocText(doc) + ReadObject(s, depth, convert).rest
    ensures Denote(doc, depth, convert) == Some(ReadObject(s, depth, convert).value)
    decreases |s|, 8
  {
    if StartsWith(SkipBlank(s), CLOSE_BRACE) {
      doc := EmptyObjectSound(s, depth, convert);
    } else {
      var before := BlankFront(s);
      var members, added := MembersSound(before, SkipBlank(s), depth, map[], convert);
      ObjectJoin(s, members, added, ReadObject(s, depth, convert).rest, depth, convert);
      doc := ObjectDoc(members);
    }
  }

  lemma ObjectJoin(s: Bytes, members: Members, added: map<Bytes, Value>, rest: Bytes, depth: nat,
                   convert: Convert)
    requires depth <= MAX_DEPTH && s == MembersText(members) + rest
    requires DenoteMembers(members, depth + 1, convert) == Some(added)
    ensures [OPEN_BRACE] + s == DocText(ObjectDoc(members)) + rest
    ensures Denote(ObjectDoc(members), depth, convert) == Some(Object(map[] + added))
  {
    assert map[] + added == added;
    Regroup([OPEN_BRACE], MembersText(members), rest);
  }

  /** The parts of one member that was read. */
  lemma MemberSound(s: Bytes, depth: nat, seen: map<Bytes, Value>, convert: Convert)
      returns (key: seq<Unit>, afterKey: Bytes, colon: Bytes)
    requires ReadMembers(s, depth, seen, convert).Got?
    ensures ReadString(s).Got? && StringValue(key) == Some(ReadString(s).value)
    ensures Blank(afterKey) && ReadString(s).value !in seen
    ensures colon == SkipBlank(ReadString(s).rest)[1..] && |colon| < |s|
    ensures s == StringText(key) + (afterKey + ([COLON] + colon))
    ensures ReadValue(colon, depth + 1, convert).Got?
  {
    key := StringSound(s);
    afterKey := ReadMark(ReadString(s).rest);
    colon := SkipBlank(ReadString(s).rest)[1..];
  }

  /** A member list's text from the texts of its first member and of the rest. */
  lemma MemberJoin(members: Members, s: Bytes, colon: Bytes, tail: Bytes, rest: Bytes)
    requires s == StringText(members.key) + (members.afterKey + ([COLON] + colon))
    requires colon == members.gap + (DocText(members.doc) + tail)
    requires tail == MemberTail(members, rest)
    ensures members.before + s == MembersText(members) + rest
  {
    MembersSplit(members, rest);
  }

  lemma {:induction false} MembersSound(before: Bytes, s: Bytes, depth: nat,
                                        seen: map<Bytes, Value>, convert: Convert)
      returns (members: Members, added: map<Bytes, Value>)
    requires ReadsNumbers(convert) && Blank(before) && ReadMembers(s, depth, seen, convert).Got?
    ensures before + s == MembersText(members) + ReadMembers(s, depth, seen, convert).rest
    ensures DenoteMembers(members, depth + 1, convert) == Some(added)
    ensures added.Keys !! seen.Keys
    ensures ReadMembers(s, depth, seen, convert).value == seen + added
    decreases |s|, 7
  {
    hide DocText, StringText, MembersText, ReadValue, ReadString, Denote;
    var key, afterKey, colon := MemberSound(s, depth, seen, convert);
    var name := ReadString(s).value;
    var gap, doc := ValueSound(colon, depth + 1, convert);
    var v, tail :=
      ReadValue(colon, depth + 1, convert).value, ReadValue(colon, depth + 1, convert).rest;
    var after := ReadMark(tail);
    var u := SkipBlank(tail);
    if u[0] == CLOSE_BRACE {
      members := LastMember(before, key, afterKey, gap, doc, after);
      added := map[name := v];
      Regroup(after, [CLOSE_BRACE], u[1..]);
      MemberJoin(members, s, colon, tail, u[1..]);
      assert seen[name := v] == seen + added;
    } else {
      var next := BlankFront(u[1..]);
      var more, others := MembersSound(next, SkipBlank(u[1..]), depth, seen[name := v], convert);
      members := Member(before, key, afterKey, gap, doc, after, more);
      added := others[name := v];
      var last := ReadMembers(s, depth, seen, convert).rest;
      Regroup(after, [COMMA], MembersText(more) + last);
      MemberJoin(members, s, colon, tail, last);
      assert name in seen[name := v];
      AddFirst(seen, name, v, others);
    }
  }

  // The whole text.

  /** The parser's answer for a text is the grammar's: a value exactly when the grammar derives
      one within the limits, and then that value. */
  lemma TextReads(text: Bytes, v: Value, convert: Convert)
    requires ReadsNumbers(convert)
    ensures Derives(text, v, convert) <==> ReadText(text, convert) == Some(v)
  {
    if Derives(text, v, convert) {
      TextComplete(text, v, convert);
    }
    if ReadText(text, convert) == Some(v) {
      TextSound(text, v, convert);
    }
  }

  lemma TextComplete(text: Bytes, v: Value, convert: Convert)
    requires Derives(text, v, convert)
    ensures ReadText(text, convert) == Some(v)
  {
    var before: Bytes, doc: Doc, after: Bytes :|
      && Blank(before) && Blank(after)
      && text == before + DocText(doc) + after
      && Denote(doc, 0, convert) == Some(v);
    Regroup(before, DocText(doc), after);
    ValueComplete(before, doc, after, 0, convert);
    SkipPast(after, []);
    assert after + [] == after;
  }

  lemma TextSound(text: Bytes, v: Value, convert: Convert)
    requires ReadsNumbers(convert) && ReadText(text, convert) == Some(v)
    ensures Derives(text, v, convert)
  {
    var before, doc := ValueSound(text, 0, convert);
    var rest := ReadValue(text, 0, convert).rest;
    var after := BlankFront(rest);
    assert after == rest;
    assert text == before + DocText(doc) + after;
  }

  /** The grammar is unambiguous: a text derives at most one value. */
  lemma DerivesOnce(text: Bytes, v: Value, w: Value, convert: Convert)
    requires Derives(text, v, convert) && Derives(text, w, convert)
    ensures v == w
  {
    TextComplete(text, v, convert);
    TextComplete(text, w, convert);
  }
}
