/** The string scanner and decoder against section 7's grammar: every spelling is read back
    (completeness), every accepted text has a spelling (soundness), and the one UTF-8 check made
    after decoding does what checking each raw character would. */
module JsonStrings {
  import opened Common
  import opened Utf8
  import opened JsonGrammar
  import opened JsonReading

  lemma Regroup(a: Bytes, b: Bytes, c: Bytes)
    ensures (a + b) + c == a + (b + c)
  {
  }

  lemma DropFront(a: Bytes, b: Bytes)
    ensures (a + b)[|a|..] == b
  {
  }

  lemma SplitAt(s: Bytes, k: nat)
    requires k <= |s|
    ensures s == s[..k] + s[k..]
  {
  }

  // Completeness.

  predicate Inert(s: Bytes) {
    forall i :: 0 <= i < |s| ==> s[i] >= 0x20 && s[i] != QUOTE && s[i] != BACKSLASH
  }

  lemma {:induction false} QuotePastInert(s: Bytes, rest: Bytes)
    requires Inert(s)
    ensures QuoteAt(s + rest) ==
            match QuoteAt(rest) case Some(n) => Some(|s| + n) case None => None
  {
    if s == [] {
      assert s + rest == rest;
    } else {
      QuotePastInert(s[1..], rest);
      assert (s + rest)[1..] == s[1..] + rest;
    }
  }

  lemma PrefixedTwice(front: Bytes, next: Bytes, r: Option<Bytes>)
    ensures Prefixed(front, Prefixed(next, r)) == Prefixed(front + next, r)
  {
    assert r.Some? ==> front + (next + r.value) == front + next + r.value;
  }

  lemma DecodePastOne(b: byte, rest: Bytes)
    requires b >= 0x20 && b != BACKSLASH
    ensures Decode([b] + rest) == Prefixed([b], Decode(rest))
  {
    assert ([b] + rest)[1..] == rest;
  }

  lemma {:induction false} DecodeInert(s: Bytes, rest: Bytes)
    requires Inert(s)
    ensures Decode(s + rest) == Prefixed(s, Decode(rest))
  {
    if s == [] {
      assert s + rest == rest;
      assert Decode(rest).Some? ==> s + Decode(rest).value == Decode(rest).value;
    } else {
      DecodeInert(s[1..], rest);
      DecodePastOne(s[0], s[1..] + rest);
      assert s + rest == [s[0]] + (s[1..] + rest);
      PrefixedTwice([s[0]], s[1..], Decode(rest));
      assert [s[0]] + s[1..] == s;
    }
  }

  lemma PlainInert(c: Scalar)
    requires UnitScalar(Plain(c)).Some?
    ensures Inert(Encode(c))
  {
  }

  lemma {:induction false} HexInert(s: Bytes)
    requires HexNumber(s).Some?
    ensures Inert(s)
  {
    if s != [] {
      HexInert(s[..|s| - 1]);
      assert s == s[..|s| - 1] + [s[|s| - 1]];
    }
  }

  lemma QuotePastEscape(letter: byte, rest: Bytes)
    ensures QuoteAt([BACKSLASH, letter] + rest) ==
            match QuoteAt(rest) case Some(n) => Some(2 + n) case None => None
  {
    assert ([BACKSLASH, letter] + rest)[2..] == rest;
  }

  lemma QuotePastHex(digits: Bytes, rest: Bytes)
    requires HexNumber(digits).Some?
    ensures QuoteAt([BACKSLASH, LETTER_U] + (digits + rest)) ==
            match QuoteAt(rest) case Some(n) => Some(2 + |digits| + n) case None => None
  {
    HexInert(digits);
    QuotePastInert(digits, rest);
    QuotePastEscape(LETTER_U, digits + rest);
  }

  lemma QuotePastPair(high: Bytes, low: Bytes, rest: Bytes)
    requires UnitScalar(Pair(high, low)).Some?
    ensures QuoteAt(UnitText(Pair(high, low)) + rest) ==
            match QuoteAt(rest) case Some(n) => Some(12 + n) case None => None
  {
    QuotePastHex(low, rest);
    QuotePastHex(high, [BACKSLASH, LETTER_U] + (low + rest));
    var mark := [BACKSLASH, LETTER_U];
    Regroup(mark + high + mark, low, rest);
    Regroup(mark + high, mark, low + rest);
    Regroup(mark, high, mark + (low + rest));
  }

  /** The scan passes over every allowed unit as a whole. */
  lemma QuotePastUnit(u: Unit, rest: Bytes)
    requires UnitScalar(u).Some?
    ensures QuoteAt(UnitText(u) + rest) ==
            match QuoteAt(rest) case Some(n) => Some(|UnitText(u)| + n) case None => None
  {
    match u
    case Plain(c) =>
      PlainInert(c);
      QuotePastInert(Encode(c), rest);
    case Short(letter, _) =>
      QuotePastEscape(letter, rest);
    case Hex(digits) =>
      QuotePastHex(digits, rest);
      Regroup([BACKSLASH, LETTER_U], digits, rest);
    case Pair(high, low) =>
      QuotePastPair(high, low, rest);
  }

  lemma DecodeHex(digits: Bytes, rest: Bytes)
    requires UnitScalar(Hex(digits)).Some?
    ensures DecodeTurn(UnitText(Hex(digits)) + rest)
         == Took(Encode(UnitScalar(Hex(digits)).value), 6)
  {
    var raw := UnitText(Hex(digits)) + rest;
    assert raw[2..6] == digits;
  }

  lemma DecodePair(high: Bytes, low: Bytes, rest: Bytes)
    requires UnitScalar(Pair(high, low)).Some?
    ensures DecodeTurn(UnitText(Pair(high, low)) + rest)
         == Took(Encode(UnitScalar(Pair(high, low)).value), 12)
  {
    var raw := UnitText(Pair(high, low)) + rest;
    assert raw[2..6] == high;
    assert raw[8..12] == low;
    assert raw[6] == BACKSLASH && raw[7] == LETTER_U;
  }

  /** One allowed unit decodes to its character's encoding. */
  lemma DecodeUnit(u: Unit, rest: Bytes)
    requires UnitScalar(u).Some?
    ensures Decode(UnitText(u) + rest) == Prefixed(Encode(UnitScalar(u).value), Decode(rest))
  {
    hide EncodeAll, Combine;
    match u
    case Plain(c) =>
      PlainInert(c);
      DecodeInert(Encode(c), rest);
    case Short(letter, _) =>
      assert Encode(UnitScalar(u).value) == [ShortEscape(letter).value];
      DropFront(UnitText(u), rest);
    case Hex(digits) =>
      DecodeHex(digits, rest);
      DropFront(UnitText(u), rest);
    case Pair(high, low) =>
      DecodePair(high, low, rest);
      DropFront(UnitText(u), rest);
  }

  lemma {:induction false} UnitsDecode(units: seq<Unit>)
    requires UnitsScalars(units).Some?
    ensures Decode(UnitsText(units)) == Some(EncodeAll(UnitsScalars(units).value))
  {
    if units != [] {
      UnitsDecode(units[1..]);
      DecodeUnit(units[0], UnitsText(units[1..]));
      EncodeAllCons(UnitScalar(units[0]).value, UnitsScalars(units[1..]).value);
    }
  }

  lemma {:induction false} UnitsToQuote(units: seq<Unit>, rest: Bytes)
    requires UnitsScalars(units).Some?
    ensures QuoteAt(UnitsText(units) + ([QUOTE] + rest)) == Some(|UnitsText(units)|)
  {
    hide UnitText;
    var tail := [QUOTE] + rest;
    if units == [] {
      assert UnitsText(units) + tail == tail;
    } else {
      UnitsToQuote(units[1..], rest);
      QuotePastUnit(units[0], UnitsText(units[1..]) + tail);
      Regroup(UnitText(units[0]), UnitsText(units[1..]), tail);
    }
  }

  lemma StringTail(body: Bytes, rest: Bytes)
    ensures ([QUOTE] + body + [QUOTE] + rest)[1..] == body + ([QUOTE] + rest)
  {
  }

  lemma ReadStringAt(s: Bytes, raw: Bytes, rest: Bytes)
    requires s != [] && s[0] == QUOTE && s[1..] == raw + ([QUOTE] + rest)
    requires QuoteAt(raw + ([QUOTE] + rest)) == Some(|raw|)
    requires Decode(raw).Some? && WellFormed(Decode(raw).value)
    ensures ReadString(s) == Got(Decode(raw).value, rest)
  {
    assert s[1..][..|raw|] == raw;
    assert s[1..][|raw| + 1..] == rest;
  }

  /** Every spelling of a string is read back as the string, up to its own closing quote. */
  lemma StringComplete(units: seq<Unit>, rest: Bytes)
    requires StringValue(units).Some?
    ensures ReadString(StringText(units) + rest) == Got(StringValue(units).value, rest)
  {
    UnitsToQuote(units, rest);
    UnitsDecode(units);
    EncodeAllWellFormed(UnitsScalars(units).value);
    StringTail(UnitsText(units), rest);
    ReadStringAt(StringText(units) + rest, UnitsText(units), rest);
  }

  // Soundness.

  lemma {:induction false} BeforeQuote(s: Bytes, n: nat)
    requires QuoteAt(s) == Some(n)
    ensures QuoteAt(s[..n]) == None
  {
    if s[0] != QUOTE {
      var k := if s[0] == BACKSLASH then 2 else 1;
      BeforeQuote(s[k..], n - k);
      assert s[..n][k..] == s[k..][..n - k];
    }
  }

  lemma NoQuoteAfterOne(raw: Bytes)
    requires raw != [] && QuoteAt(raw) == None && raw[0] != BACKSLASH
    ensures raw[0] != QUOTE && QuoteAt(raw[1..]) == None
  {
  }

  lemma {:induction false} NoQuoteAfterInert(raw: Bytes, k: nat)
    requires k <= |raw| && QuoteAt(raw) == None
    requires forall i :: 0 <= i < k ==> raw[i] != BACKSLASH
    ensures QuoteAt(raw[k..]) == None
    ensures forall i :: 0 <= i < k ==> raw[i] != QUOTE
  {
    if k > 0 {
      NoQuoteAfterOne(raw);
      NoQuoteAfterInert(raw[1..], k - 1);
      assert raw[1..][k - 1..] == raw[k..];
      assert forall i :: 1 <= i < k ==> raw[i] == raw[1..][i - 1];
    }
  }

  lemma NoQuoteAfterHex(raw: Bytes)
    requires |raw| >= 6 && raw[0] == BACKSLASH && QuoteAt(raw) == None
    requires HexNumber(raw[2..6]).Some?
    ensures QuoteAt(raw[6..]) == None
  {
    HexInert(raw[2..6]);
    assert raw[2..6] == raw[2..][..4];
    assert forall i :: 0 <= i < 4 ==> raw[2..][i] == raw[2..6][i];
    NoQuoteAfterInert(raw[2..], 4);
    assert raw[2..][4..] == raw[6..];
  }

  /** The unit an accepted escape spells. */
  function EscapeUnit(raw: Bytes): (u: Unit)
    requires raw != [] && raw[0] == BACKSLASH && DecodeTurn(raw).Took?
  {
    if raw[1] != LETTER_U then
      var c: int := ShortEscape(raw[1]).value;
      Short(raw[1], c)
    else if IsHigh(HexNumber(raw[2..6]).value) then Pair(raw[2..6], raw[8..12])
    else Hex(raw[2..6])
  }

  /** An accepted escape is an allowed unit and decodes to that unit's character. */
  lemma EscapeSound(raw: Bytes)
    requires raw != [] && raw[0] == BACKSLASH && DecodeTurn(raw).Took?
    ensures UnitScalar(EscapeUnit(raw)).Some?
    ensures DecodeTurn(raw) ==
            Took(Encode(UnitScalar(EscapeUnit(raw)).value), |UnitText(EscapeUnit(raw))|)
    ensures UnitText(EscapeUnit(raw)) == raw[..DecodeTurn(raw).used]
  {
    var u := EscapeUnit(raw);
    match u
    case Short(letter, _) =>
      assert Encode(UnitScalar(u).value) == [ShortEscape(letter).value];
    case Hex(_) =>
      HexSlices(raw);
    case Pair(_, _) =>
      HexSlices(raw);
      PairSlices(raw);
  }

  lemma HexSlices(raw: Bytes)
    requires |raw| >= 6
    ensures raw[..6] == [raw[0], raw[1]] + raw[2..6]
  {
  }

  lemma PairSlices(raw: Bytes)
    requires |raw| >= 12
    ensures raw[..12] == raw[..6] + [raw[6], raw[7]] + raw[8..12]
  {
  }

  lemma NoQuoteAfterEscape(raw: Bytes)
    requires raw != [] && raw[0] == BACKSLASH && DecodeTurn(raw).Took? && QuoteAt(raw) == None
    ensures QuoteAt(raw[DecodeTurn(raw).used..]) == None
  {
    if raw[1] == LETTER_U {
      NoQuoteAfterHex(raw);
      if IsHigh(HexNumber(raw[2..6]).value) {
        assert raw[6..][2..6] == raw[8..12];
        NoQuoteAfterHex(raw[6..]);
        assert raw[6..][6..] == raw[12..];
      }
    }
  }

  lemma EscapeStart(raw: Bytes, text: Bytes)
    requires raw != [] && raw[0] == BACKSLASH && Decode(raw) == Some(text)
    ensures text != [] && !IsContinuation(text[0])
  {
    EscapeSound(raw);
    var out := DecodeTurn(raw).out;
    assert text[0] == out[0];
  }

  lemma SharedFront(s: Bytes, t: Bytes, k: nat)
    requires s != [] && t != [] && s[0] == t[0] && k < |s| && k < |t|
    requires s[1..][..k] == t[1..][..k]
    ensures s[..k + 1] == t[..k + 1]
    ensures s[1..][k..] == s[k + 1..] && t[1..][k..] == t[k + 1..]
  {
    assert s[..k + 1] == [s[0]] + s[1..][..k];
    assert t[..k + 1] == [t[0]] + t[1..][..k];
  }

  lemma DecodeRaw(raw: Bytes, text: Bytes)
    requires raw != [] && raw[0] != BACKSLASH && Decode(raw) == Some(text)
    ensures raw[0] >= 0x20 && text != [] && text[0] == raw[0] && Decode(raw[1..]) == Some(text[1..])
  {
    assert text[1..] == Decode(raw[1..]).value;
  }

  /** Continuation bytes come from the raw text itself: no escape starts with one. */
  lemma {:induction false} ContinuationsAreRaw(raw: Bytes, text: Bytes, k: nat)
    requires Decode(raw) == Some(text) && k <= |text|
    requires forall i :: 0 <= i < k ==> IsContinuation(text[i])
    ensures k <= |raw| && raw[..k] == text[..k] && Decode(raw[k..]) == Some(text[k..])
  {
    if k > 0 {
      if raw[0] == BACKSLASH {
        EscapeStart(raw, text);
        assert false;
      }
      DecodeRaw(raw, text);
      ContinuationsAreRaw(raw[1..], text[1..], k - 1);
      SharedFront(raw, text, k - 1);
    } else {
      assert raw[0..] == raw && text[0..] == text;
    }
  }

  /** A character that starts with a raw byte is raw throughout. */
  lemma RawCharacter(raw: Bytes, text: Bytes)
    requires raw != [] && raw[0] != BACKSLASH && Decode(raw) == Some(text)
    requires FirstLength(text) > 0
    ensures var k := FirstLength(text);
            k <= |raw| && raw[..k] == text[..k] && Decode(raw[k..]) == Some(text[k..])
  {
    var k := FirstLength(text);
    DecodeRaw(raw, text);
    ContinuationsAreRaw(raw[1..], text[1..], k - 1);
    SharedFront(raw, text, k - 1);
  }

  lemma UnitsCons(u: Unit, units: seq<Unit>)
    requires UnitScalar(u).Some? && UnitsScalars(units).Some?
    ensures UnitsText([u] + units) == UnitText(u) + UnitsText(units)
    ensures StringValue([u] + units) == Some(Encode(UnitScalar(u).value) + StringValue(units).value)
  {
    assert ([u] + units)[1..] == units;
    EncodeAllCons(UnitScalar(u).value, UnitsScalars(units).value);
  }

  /** The unit a raw character spells, with what makes it allowed. */
  lemma PlainSound(raw: Bytes, text: Bytes) returns (u: Unit, k: nat)
    requires raw != [] && raw[0] != BACKSLASH && Decode(raw) == Some(text)
    requires FirstLength(text) > 0 && QuoteAt(raw) == None
    ensures 0 < k <= |raw| && k <= |text|
    ensures UnitScalar(u).Some? && UnitText(u) == raw[..k] == text[..k]
    ensures Encode(UnitScalar(u).value) == text[..k]
    ensures Decode(raw[k..]) == Some(text[k..]) && QuoteAt(raw[k..]) == None
  {
    k := FirstLength(text);
    var c := FirstScalar(text);
    RawCharacter(raw, text);
    EncodeFirst(text);
    assert raw[0] == raw[..k][0] == text[..k][0] == text[0];
    assert forall i :: 1 <= i < k ==> raw[i] == raw[..k][i] == text[..k][i] == text[i];
    NoQuoteAfterInert(raw, k);
    u := Plain(c);
    if c < 0x80 {
      assert Encode(c) == [c];
    }
  }

  /** The first unit of an accepted text: it takes `k` raw bytes and gives `m` decoded ones. */
  lemma UnitSound(raw: Bytes, text: Bytes) returns (u: Unit, k: nat, m: nat)
    requires raw != [] && Decode(raw) == Some(text) && WellFormed(text) && QuoteAt(raw) == None
    ensures 0 < k <= |raw| && m <= |text|
    ensures UnitScalar(u).Some? && UnitText(u) == raw[..k]
    ensures Encode(UnitScalar(u).value) == text[..m]
    ensures Decode(raw[k..]) == Some(text[m..]) && QuoteAt(raw[k..]) == None
    ensures WellFormed(text[m..])
  {
    if raw[0] == BACKSLASH {
      EscapeSound(raw);
      NoQuoteAfterEscape(raw);
      u := EscapeUnit(raw);
      k := DecodeTurn(raw).used;
      var rest := Decode(raw[k..]).value;
      EncodePrefix(UnitScalar(u).value, rest);
      m := |Encode(UnitScalar(u).value)|;
      assert text[m..] == rest;
    } else {
      DecodeRaw(raw, text);
      u, k := PlainSound(raw, text);
      m := k;
      assert m == FirstLength(text) by {
        EncodeLength(UnitScalar(u).value, text);
      }
    }
  }

  lemma UnitsJoin(raw: Bytes, text: Bytes, u: Unit, k: nat, m: nat, more: seq<Unit>)
    requires k <= |raw| && m <= |text|
    requires UnitScalar(u).Some? && UnitText(u) == raw[..k]
    requires Encode(UnitScalar(u).value) == text[..m]
    requires UnitsText(more) == raw[k..] && StringValue(more) == Some(text[m..])
    ensures UnitsText([u] + more) == raw && StringValue([u] + more) == Some(text)
  {
    UnitsCons(u, more);
    SplitAt(raw, k);
    SplitAt(text, m);
  }

  /** Whatever the decoder accepts, and the UTF-8 check lets pass, is the spelling of a string. */
  lemma {:induction false} UnitsSound(raw: Bytes, text: Bytes) returns (units: seq<Unit>)
    requires Decode(raw) == Some(text) && WellFormed(text) && QuoteAt(raw) == None
    ensures UnitsText(units) == raw && StringValue(units) == Some(text)
    decreases |raw|
  {
    if raw == [] {
      units := [];
    } else {
      var u, k, m := UnitSound(raw, text);
      var more := UnitsSound(raw[k..], text[m..]);
      UnitsJoin(raw, text, u, k, m, more);
      units := [u] + more;
    }
  }

  lemma StringSplit(s: Bytes, n: nat)
    requires s != [] && n < |s[1..]|
    ensures s == [s[0]] + s[1..][..n] + [s[1..][n]] + s[1..][n + 1..]
  {
  }

  lemma StringSound(s: Bytes) returns (units: seq<Unit>)
    requires ReadString(s).Got?
    ensures StringValue(units) == Some(ReadString(s).value)
    ensures s == StringText(units) + ReadString(s).rest
  {
    var n := QuoteAt(s[1..]).value;
    BeforeQuote(s[1..], n);
    StringSplit(s, n);
    units := UnitsSound(s[1..][..n], ReadString(s).value);
  }

  // The one UTF-8 check.

  /** Bytes below 0x80 stand alone: they neither complete nor break a character. */
  lemma {:induction false} AsciiPrefix(ascii: Bytes, rest: Bytes)
    requires forall i :: 0 <= i < |ascii| ==> ascii[i] < 0x80
    ensures WellFormed(ascii + rest) <==> WellFormed(rest)
  {
    if ascii == [] {
      assert ascii + rest == rest;
    } else {
      AsciiPrefix(ascii[1..], rest);
      assert (ascii + rest)[1..] == ascii[1..] + rest;
    }
  }

  lemma {:induction false} HexAscii(s: Bytes)
    requires HexNumber(s).Some?
    ensures forall i :: 0 <= i < |s| ==> s[i] < 0x80
  {
    if s != [] {
      HexAscii(s[..|s| - 1]);
      assert s == s[..|s| - 1] + [s[|s| - 1]];
    }
  }

  lemma EscapeAscii(u: Unit)
    requires UnitScalar(u).Some? && !u.Plain?
    ensures forall i :: 0 <= i < |UnitText(u)| ==> UnitText(u)[i] < 0x80
  {
    match u
    case Short(_, _) =>
    case Hex(digits) => HexAscii(digits);
    case Pair(high, low) =>
      HexAscii(high);
      HexAscii(low);
  }

  /** The length of a first character depends on its own bytes alone. */
  lemma FirstLengthLocal(s: Bytes, t: Bytes)
    requires FirstLength(s) <= |t| && s[..FirstLength(s)] == t[..FirstLength(s)]
    requires FirstLength(s) > 0
    ensures FirstLength(t) == FirstLength(s)
  {
    var k := FirstLength(s);
    assert forall i :: 0 <= i < k ==> s[i] == s[..k][i] == t[..k][i] == t[i];
  }

  lemma {:induction false} RawContinuations(raw: Bytes, text: Bytes, k: nat)
    requires Decode(raw) == Some(text) && k <= |raw|
    requires forall i :: 0 <= i < k ==> IsContinuation(raw[i])
    ensures k <= |text| && raw[..k] == text[..k] && Decode(raw[k..]) == Some(text[k..])
  {
    if k > 0 {
      DecodeRaw(raw, text);
      RawContinuations(raw[1..], text[1..], k - 1);
      SharedFront(raw, text, k - 1);
    } else {
      assert raw[0..] == raw && text[0..] == text;
    }
  }

  lemma RawFirst(raw: Bytes, text: Bytes)
    requires raw != [] && raw[0] != BACKSLASH && Decode(raw) == Some(text)
    requires FirstLength(raw) > 0
    ensures var k := FirstLength(raw);
            k <= |text| && raw[..k] == text[..k] && Decode(raw[k..]) == Some(text[k..])
  {
    var k := FirstLength(raw);
    DecodeRaw(raw, text);
    RawContinuations(raw[1..], text[1..], k - 1);
    SharedFront(raw, text, k - 1);
  }

  /** Once the escapes are decoded, checking the result is checking the raw bytes: escapes
      cannot complete, split or repair a raw character (RFC 3629, section 3). */
  lemma {:induction false} DecodingKeepsUtf8(raw: Bytes, text: Bytes)
    requires Decode(raw) == Some(text)
    ensures WellFormed(text) <==> WellFormed(raw)
    decreases |raw|
  {
    if raw == [] {
    } else if raw[0] == BACKSLASH {
      EscapeSound(raw);
      var u := EscapeUnit(raw);
      var used := DecodeTurn(raw).used;
      EscapeAscii(u);
      AsciiPrefix(UnitText(u), raw[used..]);
      assert raw == raw[..used] + raw[used..];
      EncodePrefix(UnitScalar(u).value, Decode(raw[used..]).value);
      DecodingKeepsUtf8(raw[used..], Decode(raw[used..]).value);
    } else {
      assert text[0] == raw[0];
      if FirstLength(text) > 0 {
        RawCharacter(raw, text);
        FirstLengthLocal(text, raw);
        DecodingKeepsUtf8(raw[FirstLength(text)..], text[FirstLength(text)..]);
      } else if FirstLength(raw) > 0 {
        RawFirst(raw, text);
        FirstLengthLocal(raw, text);
      }
    }
  }

  /** The surrogate arithmetic covers the supplementary planes exactly, each scalar once. */
  lemma CombineIsBijective(c: Scalar)
    requires c >= 0x10000
    ensures var high, low := 0xD800 + (c - 0x10000) / 1024, 0xDC00 + (c - 0x10000) % 1024;
            IsHigh(high) && IsLow(low) && Combine(high, low) == c
    ensures forall h: int, l: int :: IsHigh(h) && IsLow(l) && Combine(h, l) == c ==>
              h == 0xD800 + (c - 0x10000) / 1024 && l == 0xDC00 + (c - 0x10000) % 1024
  {
    assert forall h: int, l: int :: IsHigh(h) && IsLow(l) && Combine(h, l) == c ==>
        c - 0x10000 == (h - 0xD800) * 1024 + (l - 0xDC00);
  }
}
