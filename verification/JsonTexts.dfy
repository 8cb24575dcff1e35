/** What particular texts read as, byte by byte: the escapes, the blanks, the literals, the brackets
    and the depth of nesting, without a name from the grammar or the reader. */
module JsonTexts {
  import opened Common
  import opened Utf8
  import opened JsonGrammar
  import opened JsonReading
  import opened JsonStrings
  import opened JsonProofs

  /** A text that reads as a value derives it and nothing else; one that does not, derives nothing. */
  lemma ReadsAlone(text: Bytes, convert: Convert)
    requires ReadsNumbers(convert)
    ensures forall v :: Derives(text, v, convert) <==> ReadText(text, convert) == Some(v)
  {
    forall v ensures Derives(text, v, convert) <==> ReadText(text, convert) == Some(v) {
      TextReads(text, v, convert);
    }
  }

  // Escapes.

  lemma EscapeDecodes(letter: byte)
    ensures Decode([0x5C, letter]) ==
            match DecodeTurn([0x5C, letter])
            case Took(out, used) => Some(out)
            case Refused => None
  {
    var raw: Bytes := [0x5C, letter];
    if DecodeTurn(raw).Took? {
      assert letter != LETTER_U;
      assert raw[2..] == [];
      assert DecodeTurn(raw).out + [] == DecodeTurn(raw).out;
    }
  }

  lemma QuotedReads(raw: Bytes, convert: Convert)
    requires QuoteAt(raw + [0x22]) == Some(|raw|)
    ensures ReadText([0x22] + raw + [0x22], convert) ==
            match Decode(raw)
            case Some(text) => if WellFormed(text) then Some(String(text)) else None
            case None => None
  {
    hide Decode, WellFormed, QuoteAt, ReadString;
    var s := [0x22] + raw + [0x22];
    QuotedString(raw);
    assert SkipBlank(s) == s;
    assert ReadValue(s, 0, convert) ==
        match ReadString(s) case Got(text, rest) => Got(String(text), rest) case Stuck => Stuck;
    assert SkipBlank([]) == [];
  }

  lemma QuotedString(raw: Bytes)
    requires QuoteAt(raw + [0x22]) == Some(|raw|)
    ensures ReadString([0x22] + raw + [0x22]) ==
            match Decode(raw)
            case Some(text) => if WellFormed(text) then Got(text, []) else Stuck
            case None => Stuck
  {
    hide Decode, WellFormed, QuoteAt;
    var s := [0x22] + raw + [0x22];
    assert s[1..] == raw + [0x22];
    assert s[1..][..|raw|] == raw && s[1..][|raw| + 1..] == [];
  }

  /** Between quotes, a backslash and one letter read as one character, for eight letters and no other
      byte: quote, backslash and slash as themselves, b, f, n, r and t as 8, 12, 10, 13 and 9. */
  lemma EscapeReads(letter: byte, convert: Convert)
    requires ReadsNumbers(convert)
    ensures forall v :: Derives([0x22, 0x5C, letter, 0x22], v, convert) <==>
              || (letter == 0x22 && v == String([0x22]))
              || (letter == 0x5C && v == String([0x5C]))
              || (letter == 0x2F && v == String([0x2F]))
              || (letter == 0x62 && v == String([8]))
              || (letter == 0x66 && v == String([12]))
              || (letter == 0x6E && v == String([10]))
              || (letter == 0x72 && v == String([13]))
              || (letter == 0x74 && v == String([9]))
  {
    var raw: Bytes := [0x5C, letter];
    assert [0x22] + raw + [0x22] == [0x22, 0x5C, letter, 0x22];
    assert (raw + [0x22])[2..] == [0x22];
    EscapeDecodes(letter);
    QuotedReads(raw, convert);
    ReadsAlone([0x22, 0x5C, letter, 0x22], convert);
    forall b: byte | b < 0x80 ensures WellFormed([b]) {
      assert [b][1..] == [];
    }
  }

  /** The byte writes a number below sixteen: a decimal digit, or a letter of either case. */
  predicate IsHexOf(b: byte, n: nat) {
    || (n < 10 && b == 0x30 + n)
    || (10 <= n < 16 && (b == 0x61 + (n - 10) || b == 0x41 + (n - 10)))
  }

  lemma HexDigitMeans(b: byte, n: nat)
    ensures HexDigit(b) == Some(n) <==> IsHexOf(b, n)
  {
  }

  lemma HexFour(a: byte, b: byte, c: byte, d: byte)
    ensures HexNumber([a, b, c, d]) ==
            match (HexDigit(a), HexDigit(b), HexDigit(c), HexDigit(d))
            case (Some(h), Some(i), Some(j), Some(k)) => Some(((h * 16 + i) * 16 + j) * 16 + k)
            case _ => None
  {
    hide HexDigit, HexNumber;
    HexLast([], a);
    HexLast([a], b);
    HexLast([a, b], c);
    HexLast([a, b, c], d);
    assert HexNumber([]) == Some(0) by { HexNone(); }
    assert [] + [a] == [a] && [a] + [b] == [a, b] && [a, b] + [c] == [a, b, c];
    assert [a, b, c] + [d] == [a, b, c, d];
  }

  lemma HexNone()
    ensures HexNumber([]) == Some(0)
  {
  }

  lemma HexLast(s: Bytes, b: byte)
    ensures HexNumber(s + [b]) ==
            match (HexNumber(s), HexDigit(b))
            case (Some(high), Some(low)) => Some(high * 16 + low)
            case _ => None
  {
    assert (s + [b])[..|s|] == s;
  }

  /** A \u escape between quotes reads as the character its four hexadecimal digits number, or as
      nothing when they number half of a surrogate pair. */
  lemma HexReads(a: byte, b: byte, c: byte, d: byte, h: nat, i: nat, j: nat, k: nat, convert: Convert)
    requires IsHexOf(a, h) && IsHexOf(b, i) && IsHexOf(c, j) && IsHexOf(d, k)
    ensures var n := ((h * 16 + i) * 16 + j) * 16 + k;
            ReadText([0x22, 0x5C, 0x75, a, b, c, d, 0x22], convert) ==
              if 0xD800 <= n < 0xE000 then None else Some(String(Encode(n)))
  {
    hide Encode, WellFormed, ReadText, Decode, HexNumber;
    HexText(a, b, c, d, convert);
    HexFour(a, b, c, d);
    assert HexDigit(a) == Some(h) && HexDigit(b) == Some(i);
    assert HexDigit(c) == Some(j) && HexDigit(d) == Some(k);
  }

  /** With a byte among the four that is no hexadecimal digit it reads as nothing. */
  lemma HexRefused(a: byte, b: byte, c: byte, d: byte, convert: Convert)
    requires a != 0x22 && b != 0x22 && c != 0x22 && d != 0x22
    requires a != 0x5C && b != 0x5C && c != 0x5C && d != 0x5C
    requires exists x: byte :: x in [a, b, c, d] && forall n: nat :: !IsHexOf(x, n)
    ensures ReadText([0x22, 0x5C, 0x75, a, b, c, d, 0x22], convert) == None
  {
    hide Encode, WellFormed, ReadText, Decode, HexNumber, IsHexOf;
    HexText(a, b, c, d, convert);
    HexFour(a, b, c, d);
    var x: byte :| x in [a, b, c, d] && forall n: nat :: !IsHexOf(x, n);
    if HexDigit(x).Some? {
      HexDigitMeans(x, HexDigit(x).value);
    }
  }

  lemma HexText(a: byte, b: byte, c: byte, d: byte, convert: Convert)
    requires a != 0x22 && b != 0x22 && c != 0x22 && d != 0x22
    requires a != 0x5C && b != 0x5C && c != 0x5C && d != 0x5C
    ensures ReadText([0x22, 0x5C, 0x75, a, b, c, d, 0x22], convert) ==
            match HexNumber([a, b, c, d])
            case Some(n) => if 0xD800 <= n < 0xE000 then None else Some(String(Encode(n)))
            case None => None
  {
    hide Encode, WellFormed, ReadText, Decode, HexNumber;
    var raw: Bytes := [0x5C, 0x75, a, b, c, d];
    assert [0x22] + raw + [0x22] == [0x22, 0x5C, 0x75, a, b, c, d, 0x22];
    HexQuote(a, b, c, d);
    QuotedReads(raw, convert);
    HexDecodes(a, b, c, d);
  }

  lemma HexDecodes(a: byte, b: byte, c: byte, d: byte)
    ensures var raw: Bytes := [0x5C, 0x75, a, b, c, d];
            match HexNumber([a, b, c, d])
            case Some(n) =>
              if 0xD800 <= n < 0xE000 then Decode(raw) == None
              else Decode(raw) == Some(Encode(n)) && WellFormed(Encode(n))
            case None => Decode(raw) == None
  {
    hide Encode, WellFormed, HexNumber;
    var raw: Bytes := [0x5C, 0x75, a, b, c, d];
    assert raw[2..6] == [a, b, c, d];
    assert raw[6..] == [];
    if HexNumber([a, b, c, d]).Some? {
      var n := HexNumber([a, b, c, d]).value;
      if !(0xD800 <= n < 0xE000) {
        EncodeOne(n);
        assert DecodeTurn(raw) == Took(Encode(n), 6);
        assert Encode(n) + [] == Encode(n);
      }
    }
  }

  lemma HexQuote(a: byte, b: byte, c: byte, d: byte)
    requires a != 0x22 && b != 0x22 && c != 0x22 && d != 0x22
    requires a != 0x5C && b != 0x5C && c != 0x5C && d != 0x5C
    ensures QuoteAt([0x5C, 0x75, a, b, c, d] + [0x22]) == Some(6)
  {
    var digits: Bytes := [a, b, c, d];
    var s := [0x5C, 0x75, a, b, c, d] + [0x22];
    assert s[2..] == digits + [0x22];
    SkipsPlain(digits);
  }

  lemma {:induction false} SkipsPlain(s: Bytes)
    requires forall i :: 0 <= i < |s| ==> s[i] != 0x22 && s[i] != 0x5C
    ensures QuoteAt(s + [0x22]) == Some(|s|)
  {
    if s != [] {
      SkipsPlain(s[1..]);
      assert (s + [0x22])[1..] == s[1..] + [0x22];
    }
  }

  lemma EncodeOne(c: Scalar)
    ensures WellFormed(Encode(c))
  {
    EncodeAllWellFormed([c]);
    assert EncodeAll([c]) == Encode(c) + EncodeAll([]) == Encode(c) by {
      assert [c][1..] == [];
      assert Encode(c) + [] == Encode(c);
    }
  }

  // Blanks, literals and brackets.

  /** A byte before a value is passed over exactly when it is a space, a tab, a line feed or a carriage
      return. */
  lemma BlankReads(b: byte, convert: Convert)
    ensures ReadText([b, 0x6E, 0x75, 0x6C, 0x6C], convert) == Some(Null) <==>
            b == 0x20 || b == 0x09 || b == 0x0A || b == 0x0D
  {
    hide ReadString, ReadArray, ReadObject;
    var s: Bytes := [b, 0x6E, 0x75, 0x6C, 0x6C];
    var t: Bytes := [0x6E, 0x75, 0x6C, 0x6C];
    assert s[1..] == t && SkipBlank(t) == t;
    assert t[4..] == [] && SkipBlank([]) == [];
    if IsSpace(b) {
      assert SkipBlank(s) == t;
      assert ReadValue(s, 0, convert) == Got(Null, []);
    } else {
      assert SkipBlank(s) == s;
      NotNull(s, convert);
    }
  }

  /** Nothing but the literal reads as null. */
  lemma NotNull(s: Bytes, convert: Convert)
    requires SkipBlank(s) == s && !(NULL_TEXT <= s)
    ensures var r := ReadValue(s, 0, convert); r.Got? ==> r.value != Null
  {
    hide ReadString, ReadItems, ReadMembers;
  }

  lemma LiteralReads(convert: Convert)
    ensures ReadText([0x6E, 0x75, 0x6C, 0x6C], convert) == Some(Null)
    ensures ReadText([0x74, 0x72, 0x75, 0x65], convert) == Some(Bool(true))
    ensures ReadText([0x66, 0x61, 0x6C, 0x73, 0x65], convert) == Some(Bool(false))
  {
    var n: Bytes, t: Bytes, f: Bytes :=
      [0x6E, 0x75, 0x6C, 0x6C], [0x74, 0x72, 0x75, 0x65], [0x66, 0x61, 0x6C, 0x73, 0x65];
    assert SkipBlank(n) == n && SkipBlank(t) == t && SkipBlank(f) == f;
    assert n[4..] == [] && t[4..] == [] && f[5..] == [] && SkipBlank([]) == [];
  }

  /** Braces hold members, brackets hold elements, a colon follows a key and a comma parts elements. */
  lemma BracketReads(convert: Convert)
    ensures Derives([0x7B, 0x22, 0x61, 0x22, 0x3A, 0x5B, 0x6E, 0x75, 0x6C, 0x6C, 0x2C,
                     0x74, 0x72, 0x75, 0x65, 0x5D, 0x7D],
                    Object(map[[0x61] := Array([Null, Bool(true)])]), convert)
  {
    hide DocText, Denote;
    var items := Item([], NullDoc, [], LastItem([], TrueDoc, []));
    var doc := ObjectDoc(LastMember([], [Plain(0x61)], [], [], ArrayDoc(items), []));
    ElementsRead(convert);
    MemberText(items);
    MemberValued(items, convert);
    assert [] + DocText(doc) + [] == DocText(doc);
    assert Blank([]);
  }

  lemma MemberText(items: Items)
    requires ItemsText(items) == [0x6E, 0x75, 0x6C, 0x6C, 0x2C, 0x74, 0x72, 0x75, 0x65, 0x5D]
    ensures DocText(ObjectDoc(LastMember([], [Plain(0x61)], [], [], ArrayDoc(items), []))) ==
            [0x7B, 0x22, 0x61, 0x22, 0x3A, 0x5B, 0x6E, 0x75, 0x6C, 0x6C, 0x2C, 0x74, 0x72, 0x75, 0x65,
             0x5D, 0x7D]
  {
    hide StringText, ItemsText;
    KeyReads();
    var list: Bytes := [0x5B, 0x6E, 0x75, 0x6C, 0x6C, 0x2C, 0x74, 0x72, 0x75, 0x65, 0x5D];
    assert DocText(ArrayDoc(items)) == list;
    var member := LastMember([], [Plain(0x61)], [], [], ArrayDoc(items), []);
    assert MembersText(member) ==
        [] + ([0x22, 0x61, 0x22] + ([] + ([0x3A] + ([] + (list + ([] + [0x7D]))))));
    assert DocText(ObjectDoc(member)) == [0x7B] + ([0x22, 0x61, 0x22] + ([0x3A] + (list + [0x7D])));
  }

  lemma MemberValued(items: Items, convert: Convert)
    requires DenoteItems(items, 2, convert) == Some([Null, Bool(true)])
    ensures Denote(ObjectDoc(LastMember([], [Plain(0x61)], [], [], ArrayDoc(items), [])), 0, convert) ==
            Some(Object(map[[0x61] := Array([Null, Bool(true)])]))
  {
    hide StringValue, DenoteItems;
    KeyReads();
    assert Denote(ArrayDoc(items), 1, convert) == Some(Array([Null, Bool(true)]));
  }

  lemma ElementsRead(convert: Convert)
    ensures var items := Item([], NullDoc, [], LastItem([], TrueDoc, []));
            && ItemsText(items) == [0x6E, 0x75, 0x6C, 0x6C, 0x2C, 0x74, 0x72, 0x75, 0x65, 0x5D]
            && DenoteItems(items, 2, convert) == Some([Null, Bool(true)])
  {
    var items := Item([], NullDoc, [], LastItem([], TrueDoc, []));
    assert ItemsText(LastItem([], TrueDoc, [])) == [0x74, 0x72, 0x75, 0x65, 0x5D];
    assert DenoteItems(items, 2, convert) == Some([Null] + [Bool(true)]);
    assert [Null] + [Bool(true)] == [Null, Bool(true)];
  }

  lemma KeyReads()
    ensures StringText([Plain(0x61)]) == [0x22, 0x61, 0x22]
    ensures StringValue([Plain(0x61)]) == Some([0x61])
  {
    var key: seq<Unit> := [Plain(0x61)];
    assert key[1..] == [];
    assert UnitsText(key) == [0x61] && UnitsScalars(key) == Some([0x61]);
    assert [0x61][1..] == [];
    assert EncodeAll([0x61]) == [0x61];
  }

  // Nesting.

  function Repeated(b: byte, n: nat): Bytes {
    seq(n, _ => b)
  }

  /** The text of `n` arrays, each inside the one before it. */
  function Nested(n: nat): Bytes {
    Repeated(0x5B, n) + Repeated(0x5D, n)
  }

  function NestedValue(n: nat): Value
    requires n > 0
  {
    if n == 1 then Array([]) else Array([NestedValue(n - 1)])
  }

  lemma NestedSplits(n: nat, rest: Bytes)
    requires n > 0
    ensures Nested(n) + rest == [0x5B] + (Nested(n - 1) + ([0x5D] + rest))
  {
  }

  lemma {:induction false} NestedReadsAt(n: nat, depth: nat, rest: Bytes, convert: Convert)
    requires n > 0
    ensures ReadValue(Nested(n) + rest, depth, convert) ==
            if depth + n <= 129 then Got(NestedValue(n), rest) else Stuck
    decreases n
  {
    hide Nested, ReadValue, ReadArray, ReadItems;
    var s := Nested(n) + rest;
    var inner := Nested(n - 1) + ([0x5D] + rest);
    NestedSplits(n, rest);
    OpensArray(inner, depth, convert);
    if n == 1 {
      NestedNone();
      assert inner == [0x5D] + rest;
      ClosesEmpty(rest, depth, convert);
    } else {
      NestedReadsAt(n - 1, depth + 1, [0x5D] + rest, convert);
      NestedSplits(n - 1, [0x5D] + rest);
      OneItem(inner, depth, rest, convert);
    }
  }

  lemma NestedNone()
    ensures Nested(0) == []
  {
  }

  lemma OpensArray(s: Bytes, depth: nat, convert: Convert)
    ensures ReadValue([0x5B] + s, depth, convert) ==
            if depth > 128 then Stuck else ReadArray(s, depth, convert)
  {
    hide ReadArray;
    assert SkipBlank([0x5B] + s) == [0x5B] + s;
    assert ([0x5B] + s)[1..] == s;
  }

  lemma ClosesEmpty(rest: Bytes, depth: nat, convert: Convert)
    ensures ReadArray([0x5D] + rest, depth, convert) == Got(Array([]), rest)
  {
    assert SkipBlank([0x5D] + rest) == [0x5D] + rest;
    assert ([0x5D] + rest)[1..] == rest;
  }

  /** An array of the one value that its text starts with. */
  lemma OneItem(s: Bytes, depth: nat, rest: Bytes, convert: Convert)
    requires s != [] && s[0] == 0x5B
    requires var r := ReadValue(s, depth + 1, convert); r.Got? ==> r.rest == [0x5D] + rest
    ensures ReadArray(s, depth, convert) ==
            match ReadValue(s, depth + 1, convert)
            case Got(v, _) => Got(Array([v]), rest)
            case Stuck => Stuck
  {
    hide ReadValue;
    assert SkipBlank(s) == s;
    assert SkipBlank([0x5D] + rest) == [0x5D] + rest;
    assert ([0x5D] + rest)[1..] == rest;
  }

  /** Arrays nest up to 129 deep, the outermost counted, and no deeper. */
  lemma NestingLimit(n: nat, convert: Convert)
    requires n > 0 && ReadsNumbers(convert)
    ensures (exists v :: Derives(Nested(n), v, convert)) <==> n <= 129
  {
    hide Derives, NestedValue, Nested;
    NestedReadsAt(n, 0, [], convert);
    assert Nested(n) + [] == Nested(n);
    ReadsAlone(Nested(n), convert);
    if n <= 129 {
      assert ReadText(Nested(n), convert) == Some(NestedValue(n));
    }
  }

  // Numbers.

  /** The text of a natural number in decimal. */
  function DecimalText(n: nat): (s: Bytes)
    ensures s != []
  {
    var last: byte := 0x30 + n % 10;
    if n < 10 then [last] else DecimalText(n / 10) + [last]
  }

  lemma {:induction false} DecimalIsInteger(n: nat)
    ensures IntegerPart(DecimalText(n)) && (DecimalText(n)[0] == 0x30 ==> n == 0)
  {
    var s := DecimalText(n);
    if n >= 10 {
      DecimalIsInteger(n / 10);
      assert s[0] == DecimalText(n / 10)[0];
    }
  }

  function Sign(sign: Option<bool>): Bytes {
    match sign
    case Some(up) => if up then [0x2B] else [0x2D]
    case None => []
  }

  lemma DecimalFraction(n: nat)
    ensures Fraction([0x2E] + DecimalText(n))
  {
    DecimalIsInteger(n);
    assert ([0x2E] + DecimalText(n))[1..] == DecimalText(n);
  }

  lemma DecimalExponent(capital: bool, sign: Option<bool>, n: nat)
    ensures Exponent([if capital then 0x45 else 0x65] + Sign(sign) + DecimalText(n))
  {
    hide DecimalText;
    DecimalIsInteger(n);
    var s: Bytes := [if capital then 0x45 else 0x65] + Sign(sign) + DecimalText(n);
    if sign.None? {
      assert s[1..] == DecimalText(n);
    } else {
      assert s[2..] == DecimalText(n);
    }
  }

  /** Every integer in decimal, of either sign, alone or with any fraction and any exponent, is a number
      of the grammar. */
  lemma DecimalIsNumber(negative: bool, n: nat, fraction: nat, capital: bool, sign: Option<bool>,
                        exponent: nat)
    ensures var minus: Bytes := if negative then [0x2D] else [];
            var mark: Bytes := [if capital then 0x45 else 0x65];
            && NumberText(minus + DecimalText(n) + [] + [])
            && NumberText(minus + DecimalText(n) + ([0x2E] + DecimalText(fraction))
                          + (mark + Sign(sign) + DecimalText(exponent)))
  {
    hide DecimalText, IntegerPart, Fraction, Exponent, Sign, NumberText;
    var minus: Bytes := if negative then [0x2D] else [];
    DecimalIsInteger(n);
    DecimalFraction(fraction);
    DecimalExponent(capital, sign, exponent);
    NothingMore();
    assert Minus(minus);
    NumberOf(minus, DecimalText(n), [], []);
    NumberOf(minus, DecimalText(n), [0x2E] + DecimalText(fraction),
             [if capital then 0x45 else 0x65] + Sign(sign) + DecimalText(exponent));
  }

  lemma NumberOf(m: Bytes, i: Bytes, f: Bytes, e: Bytes)
    requires Minus(m) && IntegerPart(i) && Fraction(f) && Exponent(e)
    ensures NumberText(m + i + f + e)
  {
    hide Minus, IntegerPart, Fraction, Exponent;
  }

  lemma NothingMore()
    ensures Fraction([]) && Exponent([])
  {
  }
}
