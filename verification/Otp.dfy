/** One-time codes: truncation of a digest to decimal digits, the comparison that never stops early,
    and the counter that moves only with an accepted code. */
module Otp {
  import opened Common
  import opened Octet
  import opened Text

  type Octets = seq<bv8>

  datatype Algorithm = Sha1 | Sha256 | Sha512

  const U64_MAX: nat := 0xFFFF_FFFF_FFFF_FFFF

  function DigestSize(algorithm: Algorithm): nat {
    match algorithm case Sha1 => 20 case Sha256 => 32 case Sha512 => 64
  }

  /** The keyed hash of a message under a secret, a library function that may fail. */
  type Mac = (Algorithm, Octets, Octets) -> Option<Octets>

  /** Digests have their algorithm's size. */
  ghost predicate Sized(mac: Mac) {
    forall a, key, message :: mac(a, key, message).Some? ==>
      |mac(a, key, message).value| == DigestSize(a)
  }

  function Pow10(n: nat): (p: nat)
    ensures p > 0
  {
    if n == 0 then 1 else 10 * Pow10(n - 1)
  }

  /** A counter's bytes, most significant first. */
  function BigEndian(counter: nat, size: nat): (r: Octets)
    ensures |r| == size
  {
    if size == 0 then [] else BigEndian(counter / 256, size - 1) + [(counter % 256) as bv8]
  }

  function Word(d: Octets, at: nat): nat
    requires at + 4 <= |d|
  {
    ((d[at] as nat * 256 + d[at + 1] as nat) * 256 + d[at + 2] as nat) * 256 + d[at + 3] as nat
  }

  /** Where the four bytes are taken: the low half of the last byte. */
  function Offset(d: Octets): (k: nat)
    requires d != []
    ensures k <= 15
  {
    (d[|d| - 1] & 0x0F) as nat
  }

  /** Thirty-one bits of a digest, from the offset its last byte names. */
  function Truncated(d: Octets): (v: nat)
    requires |d| >= 20
    ensures v < 0x8000_0000
  {
    Word(d, Offset(d)) % 0x8000_0000
  }

  /** Decimal, padded with zeros to a width. */
  function Padded(v: nat, width: nat): string {
    var s := Decimal(v);
    if |s| < width then seq(width - |s|, _ => '0') + s else s
  }

  function Hotp(mac: Mac, secret: Octets, counter: nat, algorithm: Algorithm, digits: nat)
    : Result<string>
    requires Sized(mac)
  {
    if |secret| < 16 then Err(InvalidConfiguration("OTP secret must be at least 16 bytes"))
    else if !(6 <= digits <= 8) then
      Err(InvalidConfiguration("OTP digit count must be between 6 and 8"))
    else
      match mac(algorithm, secret, BigEndian(counter, 8))
      case None => Err(Crypto)
      case Some(digest) => Ok(Padded(Truncated(digest) % Pow10(digits), digits))
  }

  lemma {:induction false} DecimalLength(v: nat, n: nat)
    requires n > 0 && v < Pow10(n)
    ensures |Decimal(v)| <= n
  {
    if v >= 10 {
      DecimalLength(v / 10, n - 1);
    }
  }

  lemma {:induction false} LeadingZeros(k: nat, s: string)
    ensures DecimalValue(seq(k, _ => '0') + s) == DecimalValue(s)
    decreases k, |s|
  {
    var padded := seq(k, _ => '0') + s;
    if s != [] {
      LeadingZeros(k, s[..|s| - 1]);
      assert padded[..|padded| - 1] == seq(k, _ => '0') + s[..|s| - 1];
    } else if k > 0 {
      LeadingZeros(k - 1, []);
      assert padded[..|padded| - 1] == seq(k - 1, _ => '0') + [];
    } else {
      assert padded == [];
    }
  }

  /** A padded number of the right size has exactly that many decimal digits and reads back. */
  lemma PaddedReads(v: nat, width: nat)
    requires width > 0 && v < Pow10(width)
    ensures var s := Padded(v, width);
            && |s| == width && (forall i :: 0 <= i < |s| ==> IsDecimal(s[i]))
            && DecimalValue(s) == Some(v)
  {
    DecimalLength(v, width);
    DecimalReads(v);
    LeadingZeros(width - |Decimal(v)|, Decimal(v));
  }

  /** A code has exactly the asked number of decimal digits, and they are the truncated value of the
      counter's digest modulo that power of ten. */
  lemma HotpDigits(mac: Mac, secret: Octets, counter: nat, algorithm: Algorithm, digits: nat)
    requires Sized(mac) && Hotp(mac, secret, counter, algorithm, digits).Ok?
    ensures var code := Hotp(mac, secret, counter, algorithm, digits).value;
            var digest := mac(algorithm, secret, BigEndian(counter, 8)).value;
            && 6 <= digits <= 8 && |secret| >= 16
            && |code| == digits && (forall i :: 0 <= i < |code| ==> IsDecimal(code[i]))
            && DecimalValue(code) == Some(Truncated(digest) % Pow10(digits))
  {
    hide Pow10, Truncated, Padded, BigEndian;
    var digest := mac(algorithm, secret, BigEndian(counter, 8)).value;
    PaddedReads(Truncated(digest) % Pow10(digits), digits);
  }

  /** The truncated value drops the top bit of its first byte and nothing else. */
  lemma TruncationDropsSign(d: Octets)
    requires |d| >= 20
    ensures var at := Offset(d);
            Truncated(d) == ((d[at] as nat % 128 * 256 + d[at + 1] as nat) * 256
                             + d[at + 2] as nat) * 256 + d[at + 3] as nat
  {
    hide Offset;
    var at := Offset(d);
    var a, b, c, e := d[at] as nat, d[at + 1] as nat, d[at + 2] as nat, d[at + 3] as nat;
    TopBit(a, (b * 256 + c) * 256 + e);
  }

  lemma TopBit(a: nat, low: nat)
    requires a < 256 && low < 0x100_0000
    ensures (a * 0x100_0000 + low) % 0x8000_0000 == a % 128 * 0x100_0000 + low
  {
  }

  /** Compare without stopping at the first difference: the differences are or-ed together. */
  method ConstantTimeEqual(left: Octets, right: Octets) returns (equal: bool)
    ensures equal <==> left == right
  {
    if |left| != |right| {
      return false;
    }
    var difference: bv8 := 0;
    for i := 0 to |left|
      invariant difference == 0 <==> left[..i] == right[..i]
    {
      OrOfXor(difference, left[i], right[i]);
      assert left[..i + 1] == left[..i] + [left[i]] && right[..i + 1] == right[..i] + [right[i]];
      assert left[..i + 1] == right[..i + 1] <==> left[..i] == right[..i] && left[i] == right[i];
      difference := difference | (left[i] ^ right[i]);
    }
    assert left[..|left|] == left && right[..|right|] == right;
    equal := difference == 0;
  }

  lemma OrOfXor(d: bv8, a: bv8, b: bv8)
    ensures d | (a ^ b) == 0 <==> d == 0 && a == b
  {
  }

  // The counter.

  function AsciiOf(c: char): bv8
    requires IsDecimal(c)
  {
    var n := c as int;
    assert n <= 57;
    n as bv8
  }

  /** A code's text as bytes; every character of a generated code is ASCII. */
  function Ascii(code: string): Octets
    requires forall i :: 0 <= i < |code| ==> IsDecimal(code[i])
  {
    seq(|code|, i requires 0 <= i < |code| => AsciiOf(code[i]))
  }

  function Verified(mac: Mac, secret: Octets, counter: nat, algorithm: Algorithm, digits: nat,
                    code: Octets): Result<bool>
    requires Sized(mac)
  {
    match Hotp(mac, secret, counter, algorithm, digits)
    case Err(e) => Err(e)
    case Ok(text) =>
      HotpDigits(mac, secret, counter, algorithm, digits);
      Ok(Ascii(text) == code)
  }

  /** The counter moves only with an accepted code, and a code at the last counter is refused. */
  function Advanced(mac: Mac, secret: Octets, counter: nat, algorithm: Algorithm, digits: nat,
                    code: Octets): (Result<bool>, nat)
    requires Sized(mac)
  {
    match Verified(mac, secret, counter, algorithm, digits, code)
    case Ok(true) =>
      if counter == U64_MAX then (Err(InvalidConfiguration("HOTP counter exhausted")), counter)
      else (Ok(true), counter + 1)
    case other => (other, counter)
  }

  method VerifyHotp(mac: Mac, secret: Octets, counter: nat, algorithm: Algorithm, digits: nat,
                    code: Octets) returns (r: Result<bool>)
    requires Sized(mac)
    ensures r == Verified(mac, secret, counter, algorithm, digits, code)
  {
    hide Hotp;
    var hotp := Hotp(mac, secret, counter, algorithm, digits);
    if hotp.Err? {
      return Err(hotp.error);
    }
    HotpDigits(mac, secret, counter, algorithm, digits);
    var matched := ConstantTimeEqual(Ascii(hotp.value), code);
    r := Ok(matched);
  }

  /** A stored credential's counter. */
  class Counter {
    var value: nat

    constructor (value: nat)
      ensures this.value == value
    {
      this.value := value;
    }

    method VerifyAndAdvance(mac: Mac, secret: Octets, algorithm: Algorithm, digits: nat, code: Octets)
        returns (r: Result<bool>)
      requires Sized(mac) && value <= U64_MAX
      modifies this
      ensures (r, value) == Advanced(mac, secret, old(value), algorithm, digits, code)
      ensures value <= U64_MAX
    {
      hide Verified;
      r := VerifyHotp(mac, secret, value, algorithm, digits, code);
      if r == Ok(true) {
        if value == U64_MAX {
          return Err(InvalidConfiguration("HOTP counter exhausted"));
        }
        value := value + 1;
      }
    }
  }

  /** The codes accepted when a sequence of codes is tried, and the counter afterwards. */
  function Tried(mac: Mac, secret: Octets, counter: nat, algorithm: Algorithm, digits: nat,
                 codes: seq<Octets>): (seq<Octets>, nat)
    requires Sized(mac)
    decreases |codes|
  {
    if codes == [] then ([], counter)
    else
      var (r, next) := Advanced(mac, secret, counter, algorithm, digits, codes[0]);
      var (rest, last) := Tried(mac, secret, next, algorithm, digits, codes[1..]);
      (if r == Ok(true) then [codes[0]] + rest else rest, last)
  }

  /** Over any run of attempts, the counter grows by exactly the number of accepted codes, and the
      accepted codes are those of successive counters, so no counter accepts twice. */
  lemma {:induction false} CounterCountsAccepted(mac: Mac, secret: Octets, counter: nat,
                                                 algorithm: Algorithm, digits: nat,
                                                 codes: seq<Octets>)
    requires Sized(mac)
    ensures var (accepted, last) := Tried(mac, secret, counter, algorithm, digits, codes);
            && last == counter + |accepted| && (counter <= U64_MAX ==> last <= U64_MAX)
            && forall k :: 0 <= k < |accepted| ==>
                 Verified(mac, secret, counter + k, algorithm, digits, accepted[k]) == Ok(true)
    decreases |codes|
  {
    hide Verified;
    if codes != [] {
      var (r, next) := Advanced(mac, secret, counter, algorithm, digits, codes[0]);
      CounterCountsAccepted(mac, secret, next, algorithm, digits, codes[1..]);
    }
  }

  // What is hashed, and where the digits come from.

  /** A number's bytes are read from the left, most significant first. */
  function NumberOf(s: Octets): nat {
    if s == [] then 0 else NumberOf(s[..|s| - 1]) * 256 + s[|s| - 1] as nat
  }

  function Pow256(n: nat): nat {
    if n == 0 then 1 else 256 * Pow256(n - 1)
  }

  lemma {:induction false} BigEndianReads(counter: nat, size: nat)
    requires counter < Pow256(size)
    ensures NumberOf(BigEndian(counter, size)) == counter
  {
    if size > 0 {
      hide NumberOf, Pow256;
      QuotientFits(counter, size);
      BigEndianReads(counter / 256, size - 1);
      ByteOf(counter % 256);
      NumberAppend(BigEndian(counter / 256, size - 1), (counter % 256) as bv8);
      Recombined(counter);
    }
  }

  lemma QuotientFits(counter: nat, size: nat)
    requires size > 0 && counter < Pow256(size)
    ensures counter / 256 < Pow256(size - 1)
  {
  }

  lemma NumberAppend(front: Octets, b: bv8)
    ensures NumberOf(front + [b]) == NumberOf(front) * 256 + b as nat
  {
    assert (front + [b])[..|front|] == front;
  }

  lemma Recombined(n: nat)
    ensures n / 256 * 256 + n % 256 == n
  {
  }

  lemma WordFits()
    ensures Pow256(8) == U64_MAX + 1
  {
    assert Pow256(2) == 0x1_0000 && Pow256(4) == 0x1_0000_0000;
    assert Pow256(6) == 0x1_0000_0000_0000;
  }

  lemma NibbleMeans(b: bv8)
    ensures (b & 0x0F) as nat == b as nat % 16
  {
    var low := b & 0x0F;
    var high := b >> 4;
    assert b == (high << 4) | low;
    assert b % 16 == low;
  }

  /** The message hashed is the counter in eight bytes that read back as it; the value is taken from the
      digest's four bytes at the place that the last byte names modulo sixteen, without the top bit; and
      the digits are that value's remainder by a million, ten million or a hundred million. */
  lemma HotpExactly(mac: Mac, secret: Octets, counter: nat, algorithm: Algorithm, digits: nat, code: string)
    requires Sized(mac) && counter <= U64_MAX
    requires Hotp(mac, secret, counter, algorithm, digits) == Ok(code)
    ensures exists message: Octets :: |message| == 8 && NumberOf(message) == counter
              && mac(algorithm, secret, message).Some?
              && IsCodeOf(mac(algorithm, secret, message).value, digits, code)
  {
    hide Truncated, Padded, Pow10, BigEndian, NumberOf;
    HotpDigits(mac, secret, counter, algorithm, digits);
    WordFits();
    BigEndianReads(counter, 8);
    var message := BigEndian(counter, 8);
    var d := mac(algorithm, secret, message).value;
    NibbleMeans(d[|d| - 1]);
    TruncationDropsSign(d);
    PowersOfTen();
    assert IsCodeOf(d, digits, code);
  }

  lemma PowersOfTen()
    ensures Pow10(6) == 1_000_000 && Pow10(7) == 10_000_000 && Pow10(8) == 100_000_000
  {
    assert Pow10(2) == 100 && Pow10(4) == 10_000;
  }

  /** The code a digest gives. */
  predicate IsCodeOf(d: Octets, digits: nat, code: string) {
    && |d| >= 20 && |code| == digits && (forall i :: 0 <= i < |code| ==> '0' <= code[i] <= '9')
    && var at := d[|d| - 1] as nat % 16;
       var value := ((d[at] as nat % 128 * 256 + d[at + 1] as nat) * 256 + d[at + 2] as nat) * 256
                    + d[at + 3] as nat;
       && (digits == 6 || digits == 7 || digits == 8)
       && DecimalValue(code) ==
            Some(value % if digits == 6 then 1_000_000 else if digits == 7 then 10_000_000 else 100_000_000)
  }

  /** A code is generated exactly for a secret of at least sixteen bytes, six to eight digits and a hash
      that works. */
  lemma GeneratedExactly(mac: Mac, secret: Octets, counter: nat, algorithm: Algorithm, digits: nat)
    requires Sized(mac) && counter <= U64_MAX
    ensures Hotp(mac, secret, counter, algorithm, digits).Ok? <==>
            && |secret| >= 16 && 6 <= digits <= 8
            && forall message: Octets :: |message| == 8 && NumberOf(message) == counter ==>
                 mac(algorithm, secret, message).Some?
  {
    hide Truncated, Padded, Pow10, BigEndian, NumberOf, DigestSize;
    WordFits();
    BigEndianReads(counter, 8);
    forall message: Octets | |message| == 8 && NumberOf(message) == counter
      ensures message == BigEndian(counter, 8)
    {
      SameNumber(message, BigEndian(counter, 8));
    }
  }

  /** Bytes of one length that read as one number are the same. */
  lemma {:induction false} SameNumber(a: Octets, b: Octets)
    requires |a| == |b| && NumberOf(a) == NumberOf(b)
    ensures a == b
  {
    if a != [] {
      var n := |a| - 1;
      assert a[n] as nat < 256 && b[n] as nat < 256;
      LastByte(NumberOf(a[..n]), a[n] as nat, NumberOf(b[..n]), b[n] as nat);
      SameNumber(a[..n], b[..n]);
      assert a == a[..n] + [a[n]] && b == b[..n] + [b[n]];
    }
  }

  lemma LastByte(p: nat, x: nat, q: nat, y: nat)
    requires x < 256 && y < 256 && p * 256 + x == q * 256 + y
    ensures p == q && x == y
  {
  }

  /** A code is accepted exactly when it is, character by character, the one generated. */
  lemma AcceptsExactly(mac: Mac, secret: Octets, counter: nat, algorithm: Algorithm, digits: nat,
                       code: Octets)
    requires Sized(mac)
    ensures Verified(mac, secret, counter, algorithm, digits, code) == Ok(true) <==>
            && Hotp(mac, secret, counter, algorithm, digits).Ok?
            && var text := Hotp(mac, secret, counter, algorithm, digits).value;
               |code| == |text| && forall i :: 0 <= i < |code| ==> code[i] as nat == text[i] as nat
  {
    hide Hotp;
    var hotp := Hotp(mac, secret, counter, algorithm, digits);
    if hotp.Ok? {
      HotpDigits(mac, secret, counter, algorithm, digits);
      forall i | 0 <= i < |hotp.value| ensures AsciiOf(hotp.value[i]) as nat == hotp.value[i] as nat {
        AsciiMeans(hotp.value[i]);
      }
      if |code| == |hotp.value| && forall i :: 0 <= i < |code| ==> code[i] as nat == hotp.value[i] as nat {
        forall i | 0 <= i < |code| ensures code[i] == Ascii(hotp.value)[i] {
          SameByte(code[i], Ascii(hotp.value)[i]);
        }
      }
    }
  }

  lemma AsciiMeans(c: char)
    requires IsDecimal(c)
    ensures AsciiOf(c) as nat == c as nat
  {
    ByteOf(c as int);
  }

  lemma SameByte(a: bv8, b: bv8)
    requires a as nat == b as nat
    ensures a == b
  {
    assert (a as nat) as bv8 == a && (b as nat) as bv8 == b;
  }
}
