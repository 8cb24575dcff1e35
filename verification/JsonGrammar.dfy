/** The grammar of RFC 8259, sections 2 to 7, as concrete syntax trees: `DocText` spells a tree
    out, `Denote` gives the value it stands for. A text denotes a value when some tree spells the
    text and denotes the value (`Derives`). The limits are the parser's own: nesting at most
    `MAX_DEPTH` with the root at zero, and no object with two equal decoded keys. */
module JsonGrammar {
  import opened Common
  import opened Utf8

  const MAX_DEPTH: nat := 128

  const QUOTE: byte := 0x22
  const BACKSLASH: byte := 0x5C
  const COMMA: byte := 0x2C
  const COLON: byte := 0x3A
  const OPEN_BRACKET: byte := 0x5B
  const CLOSE_BRACKET: byte := 0x5D
  const OPEN_BRACE: byte := 0x7B
  const CLOSE_BRACE: byte := 0x7D
  const LETTER_U: byte := 0x75

  /** A parsed value. Strings are UTF-8 bytes; an object forgets the order of its members. */
  datatype Value =
    | Null
    | Bool(b: bool)
    | Number(n: int)
    | String(text: Bytes)
    | Array(items: seq<Value>)
    | Object(members: map<Bytes, Value>)

  /** The number conversion, a library function: `int` stands for the identity of its result. */
  type Convert = Bytes -> Option<int>

  // Section 2: insignificant whitespace.

  predicate IsBlank(b: byte) {
    b == 0x20 || b == 0x0A || b == 0x0D || b == 0x09
  }

  predicate Blank(s: Bytes) {
    forall i :: 0 <= i < |s| ==> IsBlank(s[i])
  }

  // Section 6: numbers.

  predicate IsDigit(b: byte) {
    0x30 <= b <= 0x39
  }

  predicate Digits(s: Bytes) {
    |s| > 0 && forall i :: 0 <= i < |s| ==> IsDigit(s[i])
  }

  predicate Minus(s: Bytes) {
    s == [] || s == [0x2D]
  }

  predicate IntegerPart(s: Bytes) {
    Digits(s) && (s[0] == 0x30 ==> |s| == 1)
  }

  predicate Fraction(s: Bytes) {
    s == [] || (s[0] == 0x2E && Digits(s[1..]))
  }

  predicate Exponent(s: Bytes) {
    s == [] || (
      && (s[0] == 0x65 || s[0] == 0x45)
      && (Digits(s[1..]) || (|s| > 1 && (s[1] == 0x2B || s[1] == 0x2D) && Digits(s[2..]))))
  }

  ghost predicate NumberText(s: Bytes) {
    exists m, i, f, e ::
      Minus(m) && IntegerPart(i) && Fraction(f) && Exponent(e) && s == m + i + f + e
  }

  /** What is known of the library's conversion: it reads nothing but JSON numbers. */
  ghost predicate ReadsNumbers(convert: Convert) {
    forall s :: convert(s).Some? ==> NumberText(s)
  }

  // Section 7: strings.

  /** One character of a string as it is written. */
  datatype Unit =
    | Plain(c: Scalar)
    | Short(letter: byte, c: Scalar)
    | Hex(digits: Bytes)
    | Pair(high: Bytes, low: Bytes)

  /** What a letter after a backslash stands for: the letters are quote, backslash, slash, b, f, n, r
      and t; the characters backspace, form feed, line feed, carriage return and tab. */
  predicate StandsFor(letter: byte, c: Scalar) {
    || (letter == 0x22 && c == 0x22) || (letter == 0x5C && c == 0x5C) || (letter == 0x2F && c == 0x2F)
    || (letter == 0x62 && c == 0x08) || (letter == 0x66 && c == 0x0C) || (letter == 0x6E && c == 0x0A)
    || (letter == 0x72 && c == 0x0D) || (letter == 0x74 && c == 0x09)
  }

  function HexDigit(b: byte): (r: Option<nat>)
    ensures r.Some? ==> r.value < 16
  {
    if 0x30 <= b <= 0x39 then Some(b as int - 0x30)
    else if 0x61 <= b <= 0x66 then Some(b as int - 0x61 + 10)
    else if 0x41 <= b <= 0x46 then Some(b as int - 0x41 + 10)
    else None
  }

  /** Hexadecimal digits read from the left, most significant first. */
  function HexNumber(s: Bytes): (r: Option<nat>)
    ensures r.Some? && |s| <= 4 ==> r.value < [1, 0x10, 0x100, 0x1000, 0x10000][|s|]
  {
    if s == [] then Some(0)
    else
      match (HexNumber(s[..|s| - 1]), HexDigit(s[|s| - 1]))
      case (Some(high), Some(low)) => Some(high * 16 + low)
      case _ => None
  }

  /** A code unit written as exactly four hexadecimal digits. */
  function CodeUnit(s: Bytes): (r: Option<nat>)
    ensures r.Some? ==> r.value < 0x10000
  {
    if |s| == 4 then HexNumber(s) else None
  }

  predicate IsHigh(unit: int) {
    0xD800 <= unit <= 0xDBFF
  }

  predicate IsLow(unit: int) {
    0xDC00 <= unit <= 0xDFFF
  }

  /** The scalar a surrogate pair stands for. */
  function Combine(high: int, low: int): (c: Scalar)
    requires IsHigh(high) && IsLow(low)
    ensures 0x10000 <= c < 0x110000
  {
    0x10000 + (high - 0xD800) * 1024 + low - 0xDC00
  }

  function UnitText(u: Unit): Bytes {
    match u
    case Plain(c) => Encode(c)
    case Short(letter, _) => [BACKSLASH, letter]
    case Hex(digits) => [BACKSLASH, LETTER_U] + digits
    case Pair(high, low) => [BACKSLASH, LETTER_U] + high + [BACKSLASH, LETTER_U] + low
  }

  /** The character a unit stands for, when the grammar allows the unit. */
  function UnitScalar(u: Unit): Option<Scalar> {
    match u
    case Plain(c) =>
      if c >= 0x20 && c != QUOTE as int && c != BACKSLASH as int then Some(c) else None
    case Short(letter, c) => if StandsFor(letter, c) then Some(c) else None
    case Hex(digits) =>
      (match CodeUnit(digits)
       case Some(n) => if IsHigh(n) || IsLow(n) then None else Some(n)
       case None => None)
    case Pair(high, low) =>
      match (CodeUnit(high), CodeUnit(low))
      case (Some(h), Some(l)) => if IsHigh(h) && IsLow(l) then Some(Combine(h, l)) else None
      case _ => None
  }

  function UnitsText(units: seq<Unit>): Bytes {
    if units == [] then [] else UnitText(units[0]) + UnitsText(units[1..])
  }

  function UnitsScalars(units: seq<Unit>): Option<seq<Scalar>> {
    if units == [] then Some([])
    else
      match (UnitScalar(units[0]), UnitsScalars(units[1..]))
      case (Some(c), Some(cs)) => Some([c] + cs)
      case _ => None
  }

  function StringText(units: seq<Unit>): Bytes {
    [QUOTE] + UnitsText(units) + [QUOTE]
  }

  function StringValue(units: seq<Unit>): Option<Bytes> {
    match UnitsScalars(units)
    case Some(cs) => Some(EncodeAll(cs))
    case None => None
  }

  // Sections 3 to 5: values, objects and arrays.

  datatype Doc =
    | NullDoc
    | TrueDoc
    | FalseDoc
    | NumberDoc(text: Bytes)
    | StringDoc(units: seq<Unit>)
    | EmptyArray(gap: Bytes)
    | ArrayDoc(items: Items)
    | EmptyObject(gap: Bytes)
    | ObjectDoc(members: Members)

  /** Array elements with the whitespace around each. */
  datatype Items =
    | LastItem(before: Bytes, doc: Doc, after: Bytes)
    | Item(before: Bytes, doc: Doc, after: Bytes, more: Items)

  datatype Members =
    | LastMember(before: Bytes, key: seq<Unit>, afterKey: Bytes, gap: Bytes, doc: Doc, after: Bytes)
    | Member(before: Bytes, key: seq<Unit>, afterKey: Bytes, gap: Bytes, doc: Doc, after: Bytes,
             more: Members)

  const NULL_TEXT: Bytes := [0x6E, 0x75, 0x6C, 0x6C]
  const TRUE_TEXT: Bytes := [0x74, 0x72, 0x75, 0x65]
  const FALSE_TEXT: Bytes := [0x66, 0x61, 0x6C, 0x73, 0x65]

  function DocText(doc: Doc): Bytes {
    match doc
    case NullDoc => NULL_TEXT
    case TrueDoc => TRUE_TEXT
    case FalseDoc => FALSE_TEXT
    case NumberDoc(text) => text
    case StringDoc(units) => StringText(units)
    case EmptyArray(gap) => [OPEN_BRACKET] + gap + [CLOSE_BRACKET]
    case ArrayDoc(items) => [OPEN_BRACKET] + ItemsText(items)
    case EmptyObject(gap) => [OPEN_BRACE] + gap + [CLOSE_BRACE]
    case ObjectDoc(members) => [OPEN_BRACE] + MembersText(members)
  }

  /** The elements and the bracket that closes them. */
  function ItemsText(items: Items): Bytes {
    match items
    case LastItem(before, doc, after) => before + DocText(doc) + (after + [CLOSE_BRACKET])
    case Item(before, doc, after, more) =>
      before + DocText(doc) + (after + [COMMA] + ItemsText(more))
  }

  /** The members and the brace that closes them. */
  function MembersText(members: Members): Bytes {
    members.before + (StringText(members.key) + (members.afterKey + ([COLON]
    + (members.gap + (DocText(members.doc) + (members.after +
        match members
        case LastMember(_, _, _, _, _, _) => [CLOSE_BRACE]
        case Member(_, _, _, _, _, _, more) => [COMMA] + MembersText(more)))))))
  }

  /** The value of a tree standing at `depth`; `None` when the grammar or a limit forbids it. */
  ghost function Denote(doc: Doc, depth: nat, convert: Convert): Option<Value> {
    if depth > MAX_DEPTH then None
    else
      match doc
      case NullDoc => Some(Null)
      case TrueDoc => Some(Bool(true))
      case FalseDoc => Some(Bool(false))
      case NumberDoc(text) =>
        if NumberText(text) && convert(text).Some? then Some(Number(convert(text).value)) else None
      case StringDoc(units) =>
        (match StringValue(units) case Some(text) => Some(String(text)) case None => None)
      case EmptyArray(gap) => if Blank(gap) then Some(Array([])) else None
      case ArrayDoc(items) =>
        (match DenoteItems(items, depth + 1, convert)
         case Some(values) => Some(Array(values))
         case None => None)
      case EmptyObject(gap) => if Blank(gap) then Some(Object(map[])) else None
      case ObjectDoc(members) =>
        match DenoteMembers(members, depth + 1, convert)
        case Some(values) => Some(Object(values))
        case None => None
  }

  ghost function DenoteItems(items: Items, depth: nat, convert: Convert): Option<seq<Value>> {
    if !Blank(items.before) || !Blank(items.after) then None
    else
      match (items, Denote(items.doc, depth, convert))
      case (LastItem(_, _, _), Some(v)) => Some([v])
      case (Item(_, _, _, more), Some(v)) =>
        (match DenoteItems(more, depth, convert)
         case Some(values) => Some([v] + values)
         case None => None)
      case (_, None) => None
  }

  predicate MemberGaps(members: Members) {
    Blank(members.before) && Blank(members.afterKey) && Blank(members.gap) && Blank(members.after)
  }

  ghost function DenoteMembers(members: Members, depth: nat, convert: Convert)
    : Option<map<Bytes, Value>>
  {
    if !MemberGaps(members) then None
    else
      match (members, StringValue(members.key), Denote(members.doc, depth, convert))
      case (LastMember(_, _, _, _, _, _), Some(key), Some(v)) => Some(map[key := v])
      case (Member(_, _, _, _, _, _, more), Some(key), Some(v)) =>
        (match DenoteMembers(more, depth, convert)
         case Some(values) => if key in values then None else Some(values[key := v])
         case None => None)
      case _ => None
  }

  /** `text` is a JSON text, whitespace around one value, and stands for `v`. */
  ghost predicate Derives(text: Bytes, v: Value, convert: Convert) {
    exists before: Bytes, doc: Doc, after: Bytes ::
      && Blank(before) && Blank(after)
      && text == before + DocText(doc) + after
      && Denote(doc, 0, convert) == Some(v)
  }
}
