/** What each function of the parser computes, as a function of the text still to be read. */
module JsonReading {
  import opened Common
  import opened Utf8
  import opened JsonGrammar

  /** A value and the text after it, or no value. */
  datatype Read<+T> = Stuck | Got(value: T, rest: Bytes)

  predicate IsSpace(b: byte) {
    b == 0x09 || b == 0x0A || b == 0x0D || b == 0x20
  }

  function SkipBlank(s: Bytes): (r: Bytes)
    ensures |r| <= |s|
    ensures r != [] ==> !IsSpace(r[0])
  {
    if s != [] && IsSpace(s[0]) then SkipBlank(s[1..]) else s
  }

  predicate StartsWith(s: Bytes, b: byte) {
    s != [] && s[0] == b
  }

  predicate IsNumberByte(b: byte) {
    b == 0x2D || b == 0x2B || b == 0x2E || b == 0x65 || b == 0x45 || 0x30 <= b <= 0x39
  }

  /** How many bytes at the front a number scan takes. */
  function NumberRun(s: Bytes): (k: nat)
    ensures k <= |s|
  {
    if s != [] && IsNumberByte(s[0]) then 1 + NumberRun(s[1..]) else 0
  }

  /** Where the scan for a closing quote, jumping two bytes at each backslash, stops. */
  function QuoteAt(s: Bytes): (r: Option<nat>)
    ensures r.Some? ==> r.value < |s| && s[r.value] == QUOTE
  {
    if s == [] then None
    else if s[0] == QUOTE then Some(0)
    else
      var k := if s[0] == BACKSLASH then 2 else 1;
      if k > |s| then None
      else match QuoteAt(s[k..]) case Some(n) => Some(n + k) case None => None
  }

  /** The byte an escape letter adds. */
  function ShortEscape(letter: byte): (r: Option<byte>)
    ensures r.Some? ==> r.value < 0x80
  {
    if letter == QUOTE || letter == BACKSLASH || letter == 0x2F then Some(letter)
    else if letter == 0x62 then Some(8)
    else if letter == 0x66 then Some(12)
    else if letter == 0x6E then Some(10)
    else if letter == 0x72 then Some(13)
    else if letter == 0x74 then Some(9)
    else None
  }

  /** One turn of the decoding loop: the bytes it adds and the bytes it takes. */
  datatype Turn = Refused | Took(out: Bytes, used: nat)

  function DecodeTurn(raw: Bytes): (t: Turn)
    requires raw != []
    ensures t.Took? ==> 1 <= t.used <= |raw| && |t.out| <= t.used
  {
    if raw[0] < 0x20 then Refused
    else if raw[0] != BACKSLASH then Took([raw[0]], 1)
    else if |raw| < 2 then Refused
    else if raw[1] == LETTER_U then DecodeUnicode(raw)
    else match ShortEscape(raw[1]) case Some(b) => Took([b], 2) case None => Refused
  }

  function DecodeUnicode(raw: Bytes): (t: Turn)
    requires |raw| >= 2
    ensures t.Took? ==> 1 <= t.used <= |raw| && |t.out| <= t.used
  {
    if |raw| < 6 || HexNumber(raw[2..6]).None? then Refused
    else
      var first := HexNumber(raw[2..6]).value;
      if IsHigh(first) then
        if |raw| < 12 || raw[6] != BACKSLASH || raw[7] != LETTER_U || HexNumber(raw[8..12]).None? then
          Refused
        else
          var second := HexNumber(raw[8..12]).value;
          if IsLow(second) then Took(Encode(Combine(first, second)), 12) else Refused
      else if IsLow(first) then Refused
      else Took(Encode(first), 6)
  }

  function Prefixed(front: Bytes, r: Option<Bytes>): Option<Bytes> {
    match r case Some(s) => Some(front + s) case None => None
  }

  /** The decoding loop over a whole raw string. */
  function Decode(raw: Bytes): (r: Option<Bytes>)
    decreases |raw|
  {
    if raw == [] then Some([])
    else
      match DecodeTurn(raw)
      case Took(out, used) => Prefixed(out, Decode(raw[used..]))
      case Refused => None
  }

  function ReadString(s: Bytes): (r: Read<Bytes>)
    ensures r.Got? ==> |r.rest| < |s|
  {
    if !StartsWith(s, QUOTE) then Stuck
    else
      match QuoteAt(s[1..])
      case None => Stuck
      case Some(n) =>
        match Decode(s[1..][..n])
        case Some(text) => if WellFormed(text) then Got(text, s[1..][n + 1..]) else Stuck
        case None => Stuck
  }

  function ReadNumber(s: Bytes, convert: Convert): (r: Read<Value>)
    requires s != [] && IsNumberByte(s[0])
    ensures r.Got? ==> |r.rest| < |s|
  {
    var k := NumberRun(s);
    match convert(s[..k]) case Some(n) => Got(Number(n), s[k..]) case None => Stuck
  }

  function ReadLiteral(s: Bytes, literal: Bytes, v: Value): (r: Read<Value>)
    requires literal != []
    ensures r.Got? ==> |r.rest| < |s|
  {
    if literal <= s then Got(v, s[|literal|..]) else Stuck
  }

  function ReadValue(s: Bytes, depth: nat, convert: Convert): (r: Read<Value>)
    ensures r.Got? ==> |r.rest| < |s|
    decreases |s|, 2
  {
    if depth > MAX_DEPTH then Stuck
    else
      var t := SkipBlank(s);
      if t == [] then Stuck
      else if t[0] == OPEN_BRACE then ReadObject(t[1..], depth, convert)
      else if t[0] == OPEN_BRACKET then ReadArray(t[1..], depth, convert)
      else if t[0] == QUOTE then
        (match ReadString(t) case Got(text, rest) => Got(String(text), rest) case Stuck => Stuck)
      else if t[0] == 0x74 then ReadLiteral(t, TRUE_TEXT, Bool(true))
      else if t[0] == 0x66 then ReadLiteral(t, FALSE_TEXT, Bool(false))
      else if t[0] == 0x6E then ReadLiteral(t, NULL_TEXT, Null)
      else if t[0] == 0x2D || 0x30 <= t[0] <= 0x39 then ReadNumber(t, convert)
      else Stuck
  }

  /** The rest of an array after its opening bracket. */
  function ReadArray(s: Bytes, depth: nat, convert: Convert): (r: Read<Value>)
    ensures r.Got? ==> |r.rest| <= |s|
    decreases |s|, 4
  {
    var t := SkipBlank(s);
    if StartsWith(t, CLOSE_BRACKET) then Got(Array([]), t[1..])
    else
      match ReadItems(t, depth, convert)
      case Got(values, rest) => Got(Array(values), rest)
      case Stuck => Stuck
  }

  function ReadItems(s: Bytes, depth: nat, convert: Convert): (r: Read<seq<Value>>)
    ensures r.Got? ==> |r.rest| <= |s|
    decreases |s|, 3
  {
    match ReadValue(s, depth + 1, convert)
    case Stuck => Stuck
    case Got(v, rest) =>
      var t := SkipBlank(rest);
      if StartsWith(t, CLOSE_BRACKET) then Got([v], t[1..])
      else if !StartsWith(t, COMMA) then Stuck
      else
        match ReadItems(t[1..], depth, convert)
        case Got(values, rest2) => Got([v] + values, rest2)
        case Stuck => Stuck
  }

  /** The rest of an object after its opening brace. */
  function ReadObject(s: Bytes, depth: nat, convert: Convert): (r: Read<Value>)
    ensures r.Got? ==> |r.rest| <= |s|
    decreases |s|, 4
  {
    var t := SkipBlank(s);
    if StartsWith(t, CLOSE_BRACE) then Got(Object(map[]), t[1..])
    else
      match ReadMembers(t, depth, map[], convert)
      case Got(values, rest) => Got(Object(values), rest)
      case Stuck => Stuck
  }

  /** The members still to come, added to those `seen` already. */
  function ReadMembers(s: Bytes, depth: nat, seen: map<Bytes, Value>, convert: Convert)
    : (r: Read<map<Bytes, Value>>)
    ensures r.Got? ==> |r.rest| <= |s|
    decreases |s|, 3
  {
    match ReadString(s)
    case Stuck => Stuck
    case Got(key, rest) =>
      var t := SkipBlank(rest);
      if !StartsWith(t, COLON) || key in seen then Stuck
      else
        match ReadValue(t[1..], depth + 1, convert)
        case Stuck => Stuck
        case Got(v, rest2) =>
          var u := SkipBlank(rest2);
          if StartsWith(u, CLOSE_BRACE) then Got(seen[key := v], u[1..])
          else if !StartsWith(u, COMMA) then Stuck
          else ReadMembers(SkipBlank(u[1..]), depth, seen[key := v], convert)
  }

  /** The whole text: one value with nothing but whitespace after it. */
  function ReadText(s: Bytes, convert: Convert): Option<Value> {
    match ReadValue(s, 0, convert)
    case Got(v, rest) => if SkipBlank(rest) == [] then Some(v) else None
    case Stuck => None
  }
}
