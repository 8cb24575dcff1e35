/** The string operations the page scanner uses, on sequences of characters. */
module Text {
  import opened Common

  const USIZE_LIMIT: nat := 0x1_0000_0000_0000_0000

  /** Unicode's White_Space property. */
  predicate IsWhitespace(c: char) {
    var n := c as int;
    || 9 <= n <= 13 || n == 0x20 || n == 0x85 || n == 0xA0 || n == 0x1680
    || 0x2000 <= n <= 0x200A || n == 0x2028 || n == 0x2029 || n == 0x202F || n == 0x205F
    || n == 0x3000
  }

  function TrimStart(s: string): (r: string)
    ensures |r| <= |s|
    ensures r != [] ==> !IsWhitespace(r[0])
  {
    if s != [] && IsWhitespace(s[0]) then TrimStart(s[1..]) else s
  }

  function TrimEnd(s: string): (r: string)
    ensures r <= s
    ensures r != [] ==> !IsWhitespace(r[|r| - 1])
  {
    if s != [] && IsWhitespace(s[|s| - 1]) then TrimEnd(s[..|s| - 1]) else s
  }

  function Trim(s: string): string {
    TrimEnd(TrimStart(s))
  }

  function TrimEndOf(s: string, c: char): (r: string)
    ensures r <= s
  {
    if s != [] && s[|s| - 1] == c then TrimEndOf(s[..|s| - 1], c) else s
  }

  function StripPrefix(s: string, prefix: string): Option<string> {
    if prefix <= s then Some(s[|prefix|..]) else None
  }

  function StripSuffix(s: string, suffix: string): Option<string> {
    if |suffix| <= |s| && s[|s| - |suffix|..] == suffix then Some(s[..|s| - |suffix|]) else None
  }

  /** The text before and after the first `c`. */
  function SplitOnce(s: string, c: char): (r: Option<(string, string)>)
    ensures r.Some? ==> c !in r.value.0 && s == r.value.0 + [c] + r.value.1
  {
    if s == [] then None
    else if s[0] == c then Some(([], s[1..]))
    else
      match SplitOnce(s[1..], c)
      case Some(parts) => Some(([s[0]] + parts.0, parts.1))
      case None => None
  }

  predicate IsDecimal(c: char) {
    '0' <= c <= '9'
  }

  function DecimalValue(s: string): Option<nat> {
    if s == [] then Some(0)
    else
      match DecimalValue(s[..|s| - 1])
      case Some(high) =>
        var c := s[|s| - 1];
        if IsDecimal(c) then Some(high * 10 + (c as int - '0' as int)) else None
      case None => None
  }

  /** Rust's `parse::<usize>`: an optional plus, then decimal digits, below 2^64. */
  function ParseUsize(s: string): Option<nat> {
    var digits := if s != [] && s[0] == '+' then s[1..] else s;
    if digits == [] then None
    else
      match DecimalValue(digits)
      case Some(n) => if n < USIZE_LIMIT then Some(n) else None
      case None => None
  }

  /** A number in decimal, without leading zeros. */
  function Decimal(n: nat): (s: string)
    ensures s != [] && forall i :: 0 <= i < |s| ==> IsDecimal(s[i])
  {
    var last := ('0' as int + n % 10) as char;
    if n < 10 then [last] else Decimal(n / 10) + [last]
  }

  lemma {:induction false} DecimalReads(n: nat)
    ensures DecimalValue(Decimal(n)) == Some(n)
  {
    var s := Decimal(n);
    var last := ('0' as int + n % 10) as char;
    assert s[|s| - 1] == last;
    if n < 10 {
      assert s[..|s| - 1] == [];
    } else {
      DecimalReads(n / 10);
      assert s[..|s| - 1] == Decimal(n / 10);
    }
  }

  function LowerChar(c: char): char {
    if 'A' <= c <= 'Z' then (c as int + 32) as char else c
  }

  /** `to_ascii_lowercase`. */
  function Lower(s: string): (r: string)
    ensures |r| == |s|
  {
    seq(|s|, i requires 0 <= i < |s| => LowerChar(s[i]))
  }

  predicate EqualIgnoringCase(s: string, t: string) {
    Lower(s) == Lower(t)
  }

  /** The pieces between the `c`s, empty pieces included. */
  function Split<T(==)>(s: seq<T>, c: T): (r: seq<seq<T>>)
    ensures r != []
  {
    if s == [] then [[]]
    else
      var rest := Split(s[1..], c);
      if s[0] == c then [[]] + rest else [[s[0]] + rest[0]] + rest[1..]
  }

  // Labels.

  /** General category Cc. */
  predicate IsControl(c: char) {
    var n := c as int;
    n < 0x20 || 0x7F <= n < 0xA0
  }

  /** Formatting characters that are invisible or reorder text. */
  predicate IsInvisible(c: char) {
    var n := c as int;
    || n == 0x061C || 0x200B <= n <= 0x200F || 0x202A <= n <= 0x202E || 0x2066 <= n <= 0x2069
    || n == 0xFEFF
  }

  predicate Kept(c: char) {
    !IsControl(c) && !IsInvisible(c)
  }

  function KeepVisible(s: string): (r: string)
    ensures forall i :: 0 <= i < |r| ==> Kept(r[i])
  {
    if s == [] then []
    else (if Kept(s[0]) then [s[0]] else []) + KeepVisible(s[1..])
  }

  /** The run of non-whitespace at the front. */
  function FirstWord(s: string): (w: string)
    ensures |w| <= |s|
    ensures s != [] && !IsWhitespace(s[0]) ==> w != []
  {
    if s != [] && !IsWhitespace(s[0]) then [s[0]] + FirstWord(s[1..]) else []
  }

  function Words(s: string): (r: seq<string>)
    decreases |s|
  {
    var t := TrimStart(s);
    if t == [] then []
    else
      var w := FirstWord(t);
      [w] + Words(t[|w|..])
  }

  function JoinWords(words: seq<string>): string {
    if words == [] then []
    else if |words| == 1 then words[0]
    else words[0] + " " + JoinWords(words[1..])
  }

  /** A label fit for a terminal: control and formatting characters dropped, then whitespace
      collapsed. A newline or tab is a control character, so it is dropped, not collapsed. */
  function CleanLabel(s: string): string {
    JoinWords(Words(KeepVisible(s)))
  }

  // The tables, said once more as lists.

  /** White space is exactly these twenty-five code points. */
  lemma WhitespaceMeans(c: char)
    ensures IsWhitespace(c) <==>
            c as int in {0x09, 0x0A, 0x0B, 0x0C, 0x0D, 0x20, 0x85, 0xA0, 0x1680, 0x2000, 0x2001, 0x2002,
                         0x2003, 0x2004, 0x2005, 0x2006, 0x2007, 0x2008, 0x2009, 0x200A, 0x2028, 0x2029,
                         0x202F, 0x205F, 0x3000}
  {
  }

  /** A label drops the controls below the space and from delete to 0x9F, and of the invisible marks
      exactly these. */
  lemma KeptMeans(c: char)
    ensures Kept(c) <==>
            && c as int >= 0x20 && !(0x7F <= c as int <= 0x9F)
            && c as int !in {0x061C, 0x200B, 0x200C, 0x200D, 0x200E, 0x200F, 0x202A, 0x202B, 0x202C,
                             0x202D, 0x202E, 0x2066, 0x2067, 0x2068, 0x2069, 0xFEFF}
  {
  }

  /** Text trims to nothing exactly when it is all white space. */
  lemma TrimsToNothing(s: string)
    ensures Trim(s) == "" <==> forall i :: 0 <= i < |s| ==> IsWhitespace(s[i])
  {
    hide IsWhitespace;
    StartsTrimmed(s);
  }

  lemma {:induction false} StartsTrimmed(s: string)
    ensures TrimStart(s) == "" <==> forall i :: 0 <= i < |s| ==> IsWhitespace(s[i])
    ensures TrimStart(s) != "" ==> TrimEnd(TrimStart(s)) != ""
  {
    hide IsWhitespace;
    if s != "" && IsWhitespace(s[0]) {
      StartsTrimmed(s[1..]);
      assert forall i :: 0 < i < |s| ==> s[i] == s[1..][i - 1];
    } else if s != "" {
      EndKeepsFirst(s);
    }
  }

  lemma {:induction false} EndKeepsFirst(s: string)
    requires s != "" && !IsWhitespace(s[0])
    ensures TrimEnd(s) != ""
  {
    hide IsWhitespace;
    if IsWhitespace(s[|s| - 1]) {
      EndKeepsFirst(s[..|s| - 1]);
    }
  }

  /** A number is read from an optional plus and decimal digits, at least one, when it is below 2^64. */
  lemma ParsesExactly(s: string, n: nat)
    ensures ParseUsize(s) == Some(n) <==>
            && n < 0x1_0000_0000_0000_0000
            && exists digits :: digits != "" && (s == digits || s == "+" + digits)
                 && DecimalValue(digits) == Some(n)
  {
    hide DecimalValue;
    PlusIsNoDigit(s);
    var digits := if s != "" && s[0] == '+' then s[1..] else s;
    if ParseUsize(s) == Some(n) {
      assert s == digits || s == "+" + digits;
    }
    if some :| some != "" && (s == some || s == "+" + some) && DecimalValue(some) == Some(n) {
      if s == "+" + some {
        assert s[1..] == some;
      }
    }
  }

  lemma {:induction false} PlusIsNoDigit(s: string)
    ensures s != "" && s[0] == '+' ==> DecimalValue(s).None?
  {
    if |s| > 1 {
      PlusIsNoDigit(s[..|s| - 1]);
    }
  }
}
