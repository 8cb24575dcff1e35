/** The recursive-descent parser itself: a cursor over the input, moved by its methods. */
module JsonParser {
  import opened Common
  import opened Utf8
  import opened JsonGrammar
  import opened JsonReading
  import opened JsonStrings
  import opened JsonProofs

  /** Parse a JSON text. The answer is a value exactly when the grammar derives one, and then
      that value. */
  method Parse(input: Bytes, convert: Convert) returns (r: Option<Value>)
    requires ReadsNumbers(convert)
    ensures r.Some? ==> Derives(input, r.value, convert)
    ensures r.None? ==> forall v :: !Derives(input, v, convert)
  {
    var parser := new Parser(input, convert);
    assert input[0..] == input;
    r := parser.ParseValue(0);
    if r.Some? {
      parser.Whitespace();
      if parser.offset != |input| {
        r := None;
      }
    }
    assert r == ReadText(input, convert);
    forall v ensures Derives(input, v, convert) <==> r == Some(v) {
      TextReads(input, v, convert);
    }
  }

  /** Four hexadecimal digits at `index`, accumulated in sixteen bits. */
  method Hex4(raw: Bytes, index: nat) returns (r: Option<nat>, next: nat)
    ensures index + 4 <= |raw| ==> r == HexNumber(raw[index..index + 4]) && next == index + 4
    ensures index + 4 > |raw| ==> r == None
  {
    hide HexDigit;
    next := index;
    if index + 4 > |raw| {
      return None, next;
    }
    var digits := raw[index..index + 4];
    next := index + 4;
    var value: nat := 0;
    for i := 0 to 4
      invariant HexNumber(digits[..i]) == Some(value)
    {
      assert digits[..i + 1][..i] == digits[..i];
      var digit := DigitOf(digits[i]);
      if digit.None? {
        HexStops(digits, i + 1);
        return None, next;
      }
      value := value * 16 % 0x10000 + digit.value;
    }
    assert digits[..4] == digits;
    r := Some(value);
  }

  method DigitOf(b: byte) returns (r: Option<nat>)
    ensures r == HexDigit(b)
  {
    var n: int := b;
    if 0x30 <= b <= 0x39 {
      r := Some(n - 0x30);
    } else if 0x61 <= b <= 0x66 {
      r := Some(n - 0x61 + 10);
    } else if 0x41 <= b <= 0x46 {
      r := Some(n - 0x41 + 10);
    } else {
      r := None;
    }
  }

  lemma {:induction false} HexStops(s: Bytes, i: nat)
    requires i <= |s| && HexNumber(s[..i]) == None
    ensures HexNumber(s) == None
    decreases |s|
  {
    if i < |s| {
      assert s[..|s| - 1][..i] == s[..i];
      HexStops(s[..|s| - 1], i);
    } else {
      assert s[..i] == s;
    }
  }

  /** Elements read already, put before those still to come. */
  function After(items: seq<Value>, r: Read<seq<Value>>): Read<seq<Value>> {
    match r case Got(more, rest) => Got(items + more, rest) case Stuck => Stuck
  }

  lemma AfterNone(r: Read<seq<Value>>)
    ensures After([], r) == r
  {
    assert r.Got? ==> [] + r.value == r.value;
  }

  lemma AfterOne(items: seq<Value>, v: Value)
    ensures forall r: Read<seq<Value>> :: After(items, After([v], r)) == After(items + [v], r)
    ensures forall rest :: After(items, Got([v], rest)) == Got(items + [v], rest)
  {
    forall r: Read<seq<Value>> | r.Got?
      ensures After(items, After([v], r)) == After(items + [v], r)
    {
      assert items + ([v] + r.value) == items + [v] + r.value;
    }
  }

  /** One turn of the decoding loop moves its bytes from what is to come to what is done. */
  lemma DecodeOn(done: Bytes, raw: Bytes, at: nat)
    requires at < |raw|
    ensures match DecodeTurn(raw[at..])
            case Took(out, used) =>
              Prefixed(done, Decode(raw[at..])) == Prefixed(done + out, Decode(raw[at + used..]))
            case Refused => Prefixed(done, Decode(raw[at..])) == None
  {
    match DecodeTurn(raw[at..])
    case Took(out, used) =>
      assert raw[at..][used..] == raw[at + used..];
      var r := Decode(raw[at + used..]);
      assert r.Some? ==> done + (out + r.value) == done + out + r.value;
    case Refused =>
  }

  /** The byte that an escape letter stands for. */
  method ShortByte(letter: byte) returns (r: Option<byte>)
    ensures r == ShortEscape(letter)
  {
    match letter
    case 0x22 | 0x5C | 0x2F => r := Some(letter);
    case 0x62 => r := Some(8);
    case 0x66 => r := Some(12);
    case 0x6E => r := Some(10);
    case 0x72 => r := Some(13);
    case 0x74 => r := Some(9);
    case _ => r := None;
  }

  lemma ShortTurn(raw: Bytes, index: nat)
    requires 1 <= index < |raw| && raw[index - 1] == BACKSLASH && raw[index] != LETTER_U
    ensures DecodeTurn(raw[index - 1..]) ==
            match ShortEscape(raw[index]) case Some(b) => Took([b], 2) case None => Refused
  {
    hide ShortEscape;
  }

  /** The closing quote of a string that starts at `start`, as the scan at `end` sees it. */
  function QuoteFrom(input: Bytes, start: nat, end: nat): Option<nat>
    requires start <= end
  {
    if end > |input| then None
    else match QuoteAt(input[end..]) case Some(n) => Some(end - start + n) case None => None
  }

  lemma QuoteOn(input: Bytes, start: nat, end: nat)
    requires start <= end < |input| && input[end] != QUOTE
    ensures var next := end + if input[end] == BACKSLASH then 2 else 1;
            QuoteFrom(input, start, end) == QuoteFrom(input, start, next)
  {
    var k := if input[end] == BACKSLASH then 2 else 1;
    if end + k <= |input| {
      assert input[end..][k..] == input[end + k..];
    }
  }

  class Parser {
    const input: Bytes
    const convert: Convert
    var offset: nat

    ghost predicate Valid()
      reads this
    {
      offset <= |input|
    }

    /** The text still to be read. */
    ghost function Left(): Bytes
      requires Valid()
      reads this
    {
      input[offset..]
    }

    constructor (input: Bytes, convert: Convert)
      ensures Valid() && this.input == input && this.convert == convert && offset == 0
    {
      this.input := input;
      this.convert := convert;
      offset := 0;
    }

    method Whitespace()
      requires Valid()
      modifies this
      ensures Valid() && Left() == SkipBlank(old(Left())) && offset >= old(offset)
    {
      while offset < |input|
            && (input[offset] == 0x20 || input[offset] == 0x0A || input[offset] == 0x0D
                || input[offset] == 0x09)
        invariant Valid() && offset >= old(offset)
        invariant SkipBlank(Left()) == SkipBlank(old(Left()))
      {
        offset := offset + 1;
      }
    }

    method Consume(b: byte) returns (ok: bool)
      requires Valid()
      modifies this
      ensures Valid() && ok == StartsWith(old(Left()), b)
      ensures Left() == if ok then old(Left())[1..] else old(Left())
      ensures offset == if ok then old(offset) + 1 else old(offset)
    {
      if offset < |input| && input[offset] == b {
        offset := offset + 1;
        ok := true;
      } else {
        ok := false;
      }
    }

    method Literal(literal: Bytes, v: Value) returns (r: Option<Value>)
      requires Valid() && literal != []
      modifies this
      ensures Valid() && Answers(r, ReadLiteral(old(Left()), literal, v), Left())
    {
      if !(literal <= input[offset..]) {
        return None;
      }
      offset := offset + |literal|;
      r := Some(v);
    }

    method ParseValue(depth: nat) returns (r: Option<Value>)
      requires Valid()
      modifies this
      ensures Valid() && Answers(r, ReadValue(old(Left()), depth, convert), Left())
      decreases |input| - offset, 2
    {
      if depth > MAX_DEPTH {
        return None;
      }
      Whitespace();
      if offset == |input| {
        return None;
      }
      var b := input[offset];
      if b == OPEN_BRACE {
        r := ParseObject(depth);
      } else if b == OPEN_BRACKET {
        r := ParseArray(depth);
      } else if b == QUOTE {
        var text := ParseString();
        r := match text case Some(t) => Some(String(t)) case None => None;
      } else if b == 0x74 {
        r := Literal(TRUE_TEXT, Bool(true));
      } else if b == 0x66 {
        r := Literal(FALSE_TEXT, Bool(false));
      } else if b == 0x6E {
        r := Literal(NULL_TEXT, Null);
      } else if b == 0x2D || 0x30 <= b <= 0x39 {
        r := ParseNumber();
      } else {
        r := None;
      }
    }

    method ParseArray(depth: nat) returns (r: Option<Value>)
      requires Valid() && StartsWith(Left(), OPEN_BRACKET)
      modifies this
      ensures Valid() && Answers(r, ReadArray(old(Left())[1..], depth, convert), Left())
      decreases |input| - offset, 1
    {
      offset := offset + 1;
      Whitespace();
      var closed := Consume(CLOSE_BRACKET);
      if closed {
        return Some(Array([]));
      }
      var items: seq<Value> := [];
      ghost var all := ReadItems(Left(), depth, convert);
      AfterNone(all);
      while true
        invariant Valid() && offset > old(offset)
        invariant all == After(items, ReadItems(Left(), depth, convert))
        decreases |input| - offset
      {
        var item := ParseValue(depth + 1);
        if item.None? {
          return None;
        }
        AfterOne(items, item.value);
        items := items + [item.value];
        Whitespace();
        closed := Consume(CLOSE_BRACKET);
        if closed {
          return Some(Array(items));
        }
        var more := Consume(COMMA);
        if !more {
          return None;
        }
      }
    }

    method ParseObject(depth: nat) returns (r: Option<Value>)
      requires Valid() && StartsWith(Left(), OPEN_BRACE)
      modifies this
      ensures Valid() && Answers(r, ReadObject(old(Left())[1..], depth, convert), Left())
      decreases |input| - offset, 1
    {
      offset := offset + 1;
      Whitespace();
      var closed := Consume(CLOSE_BRACE);
      if closed {
        return Some(Object(map[]));
      }
      var members: map<Bytes, Value> := map[];
      ghost var all := ReadMembers(Left(), depth, map[], convert);
      while true
        invariant Valid() && offset > old(offset)
        invariant all == ReadMembers(Left(), depth, members, convert)
        decreases |input| - offset
      {
        var key := ParseString();
        if key.None? {
          return None;
        }
        Whitespace();
        var colon := Consume(COLON);
        if !colon || key.value in members {
          return None;
        }
        var item := ParseValue(depth + 1);
        if item.None? {
          return None;
        }
        members := members[key.value := item.value];
        Whitespace();
        closed := Consume(CLOSE_BRACE);
        if closed {
          return Some(Object(members));
        }
        var more := Consume(COMMA);
        if !more {
          return None;
        }
        Whitespace();
      }
    }

    method ParseNumber() returns (r: Option<Value>)
      requires Valid() && Left() != [] && IsNumberByte(Left()[0])
      modifies this
      ensures Valid() && Answers(r, ReadNumber(old(Left()), convert), Left())
    {
      var start := offset;
      while offset < |input|
            && (input[offset] == 0x2D || input[offset] == 0x2B || input[offset] == 0x2E
                || input[offset] == 0x65 || input[offset] == 0x45 || 0x30 <= input[offset] <= 0x39)
        invariant start <= offset <= |input|
        invariant NumberRun(input[start..]) == offset - start + NumberRun(input[offset..])
      {
        offset := offset + 1;
      }
      assert input[start..][..offset - start] == input[start..offset];
      match convert(input[start..offset])
      case Some(n) => r := Some(Number(n));
      case None => r := None;
    }

    /** The escape letter at `index`, just after its backslash; writes what it stands for into
        `buffer`, which holds `len` bytes already. */
    method Escape(raw: Bytes, index: nat, buffer: array<byte>, len: nat)
        returns (ok: bool, next: nat, filled: nat)
      requires 1 <= index <= |raw| && raw[index - 1] == BACKSLASH
      requires buffer.Length == |raw| && len < index
      modifies buffer
      ensures buffer[..len] == old(buffer[..len])
      ensures ok == DecodeTurn(raw[index - 1..]).Took?
      ensures ok ==> next == index - 1 + DecodeTurn(raw[index - 1..]).used
      ensures ok ==> len <= filled <= next <= |raw|
      ensures ok ==> buffer[len..filled] == DecodeTurn(raw[index - 1..]).out
    {
      next, filled := index, len;
      if index == |raw| {
        return false, next, filled;
      }
      var letter := raw[index];
      next := index + 1;
      if letter == LETTER_U {
        ok, next, filled := UnicodeEscape(raw, next, buffer, len);
      } else {
        ShortTurn(raw, index);
        var b := ShortByte(letter);
        ok := b.Some?;
        if ok {
          buffer[len] := b.value;
          filled := len + 1;
          assert buffer[len..filled] == [b.value];
        }
      }
    }

    /** The digits at `index`, just after `\u`, and a second escape when they are a high
        surrogate. */
    method UnicodeEscape(raw: Bytes, index: nat, buffer: array<byte>, len: nat)
        returns (ok: bool, next: nat, filled: nat)
      requires 2 <= index <= |raw| && raw[index - 2] == BACKSLASH && raw[index - 1] == LETTER_U
      requires buffer.Length == |raw| && len < index - 1
      modifies buffer
      ensures buffer[..len] == old(buffer[..len])
      ensures ok == DecodeUnicode(raw[index - 2..]).Took?
      ensures ok ==> next == index - 2 + DecodeUnicode(raw[index - 2..]).used
      ensures ok ==> len <= filled <= next <= |raw|
      ensures ok ==> buffer[len..filled] == DecodeUnicode(raw[index - 2..]).out
    {
      filled := len;
      ghost var from := raw[index - 2..];
      var first;
      first, next := Hex4(raw, index);
      if first.None? {
        assert |from| >= 6 ==> from[2..6] == raw[index..index + 4];
        return false, next, filled;
      }
      assert from[2..6] == raw[index..index + 4];
      var codepoint := first.value;
      if IsHigh(codepoint) {
        if next + 2 > |raw| || raw[next] != BACKSLASH || raw[next + 1] != LETTER_U {
          return false, next, filled;
        }
        next := next + 2;
        var low;
        low, next := Hex4(raw, next);
        if low.None? || !IsLow(low.value) {
          assert |from| >= 12 ==> from[8..12] == raw[index + 6..index + 10];
          return false, next, filled;
        }
        assert from[8..12] == raw[index + 6..index + 10];
        codepoint := Combine(codepoint, low.value);
      } else if IsLow(codepoint) {
        return false, next, filled;
      }
      filled := Append(buffer, len, Encode(codepoint));
      ok := true;
    }

    /** Write `bytes` after the first `len` bytes of `buffer`, which has room for them. */
    method Append(buffer: array<byte>, len: nat, bytes: Bytes) returns (filled: nat)
      requires len + |bytes| <= buffer.Length
      modifies buffer
      ensures filled == len + |bytes|
      ensures buffer[..len] == old(buffer[..len]) && buffer[len..filled] == bytes
    {
      for i := 0 to |bytes|
        invariant buffer[..len] == old(buffer[..len])
        invariant buffer[len..len + i] == bytes[..i]
      {
        buffer[len + i] := bytes[i];
      }
      filled := len + |bytes|;
    }

    /** A string's bytes. The buffer for the decoded text is sized by the raw text and never
        grows: every write is within it. */
    method ParseString() returns (r: Option<Bytes>)
      requires Valid()
      modifies this
      ensures Valid() && Answers(r, ReadString(old(Left())), Left())
      ensures r.Some? ==> offset > old(offset)
    {
      ghost var left := Left();
      var quoted := Consume(QUOTE);
      if !quoted {
        return None;
      }
      var start := offset;
      var end := FindQuote(start);
      if end >= |input| {
        return None;
      }
      var raw := input[start..end];
      assert raw == input[start..][..end - start];
      var decoded := DecodeRaw(raw);
      if decoded.None? {
        return None;
      }
      offset := end + 1;
      assert input[start..][end - start + 1..] == input[offset..];
      if WellFormed(decoded.value) {
        r := decoded;
      } else {
        r := None;
      }
    }

    /** Where the string starting at `start` ends: `|input|` or past it when it does not. */
    method FindQuote(start: nat) returns (end: nat)
      requires start <= |input|
      ensures end < |input| <==> QuoteAt(input[start..]).Some?
      ensures end < |input| ==> end == start + QuoteAt(input[start..]).value
    {
      end := start;
      while end < |input| && input[end] != QUOTE
        invariant start <= end
        invariant QuoteAt(input[start..]) == QuoteFrom(input, start, end)
        decreases |input| - end
      {
        QuoteOn(input, start, end);
        end := end + if input[end] == BACKSLASH then 2 else 1;
      }
    }

    method DecodeRaw(raw: Bytes) returns (r: Option<Bytes>)
      ensures r == Decode(raw)
    {
      var buffer := new byte[|raw|];
      var len, index := 0, 0;
      assert raw[0..] == raw;
      assert Decode(raw).Some? ==> buffer[..len] + Decode(raw).value == Decode(raw).value;
      while index < |raw|
        invariant 0 <= len <= index <= |raw|
        invariant Prefixed(buffer[..len], Decode(raw[index..])) == Decode(raw)
      {
        ghost var done := buffer[..len];
        DecodeOn(done, raw, index);
        var ok, next, filled := DecodeByte(raw, index, buffer, len);
        if !ok {
          return None;
        }
        index, len := next, filled;
      }
      assert buffer[..len] + [] == buffer[..len];
      r := Some(buffer[..len]);
    }

    /** One turn of the loop: the byte at `index`, or the escape it starts. */
    method DecodeByte(raw: Bytes, index: nat, buffer: array<byte>, len: nat)
        returns (ok: bool, next: nat, filled: nat)
      requires index < |raw| && buffer.Length == |raw| && len <= index
      modifies buffer
      ensures ok == DecodeTurn(raw[index..]).Took?
      ensures ok ==> next == index + DecodeTurn(raw[index..]).used
      ensures ok ==> len <= filled <= next <= |raw|
      ensures ok ==> buffer[..filled] == old(buffer[..len]) + DecodeTurn(raw[index..]).out
    {
      var b := raw[index];
      if b < 0x20 {
        return false, index, len;
      }
      if b == BACKSLASH {
        ok, next, filled := Escape(raw, index + 1, buffer, len);
        assert ok ==> buffer[..filled] == buffer[..len] + buffer[len..filled];
      } else {
        buffer[len] := b;
        ok, next, filled := true, index + 1, len + 1;
      }
    }
  }

  /** A method's answer is what its reading function gives, and `left` is what it leaves. */
  ghost predicate Answers<T>(r: Option<T>, read: Read<T>, left: Bytes) {
    match read
    case Got(v, rest) => r == Some(v) && left == rest
    case Stuck => r == None
  }
}
