/** UTF-8 as RFC 3629 defines it: the encoding of a scalar value (section 3) and the table of
    well-formed byte sequences (section 4) a decoder checks. */
module Utf8 {
  type byte = b: int | 0 <= b < 256
  type Bytes = seq<byte>

  /** A Unicode scalar value: any code point but the surrogates. */
  type Scalar = c: int | 0 <= c < 0xD800 || 0xE000 <= c < 0x110000

  predicate IsContinuation(b: byte) {
    0x80 <= b < 0xC0
  }

  /** A lead byte: its length mark and the scalar's highest bits. */
  function Lead(mark: int, bits: int): byte
    requires 0 <= mark && 0 <= bits && mark + bits < 256
  {
    mark + bits
  }

  /** A continuation byte: the mark 10 and the scalar's next six bits. */
  function Trail(bits: int): byte
    requires 0 <= bits
  {
    0x80 + bits % 64
  }

  function Encode(c: Scalar): (r: Bytes)
    ensures 1 <= |r| <= 4
    ensures c < 0x80 <==> |r| == 1
    ensures !IsContinuation(r[0])
  {
    if c < 0x80 then
      var only: byte := c;
      [only]
    else if c < 0x800 then
      [Lead(0xC0, c / 64), Trail(c)]
    else if c < 0x10000 then
      [Lead(0xE0, c / 4096), Trail(c / 64), Trail(c)]
    else
      [Lead(0xF0, c / 262144), Trail(c / 4096), Trail(c / 64), Trail(c)]
  }

  function EncodeAll(cs: seq<Scalar>): Bytes {
    if cs == [] then [] else Encode(cs[0]) + EncodeAll(cs[1..])
  }

  predicate SecondOk(lead: byte, second: byte) {
    if lead == 0xE0 then 0xA0 <= second < 0xC0
    else if lead == 0xED then 0x80 <= second < 0xA0
    else if lead == 0xF0 then 0x90 <= second < 0xC0
    else if lead == 0xF4 then 0x80 <= second < 0x90
    else IsContinuation(second)
  }

  /** How many bytes a character starting with `lead` takes; 0 when none starts so. */
  function LeadLength(lead: byte): nat {
    if lead < 0x80 then 1
    else if 0xC2 <= lead < 0xE0 then 2
    else if 0xE0 <= lead < 0xF0 then 3
    else if 0xF0 <= lead < 0xF5 then 4
    else 0
  }

  /** The length of the well-formed character at the front of `s`; 0 when there is none. */
  function FirstLength(s: Bytes): (k: nat)
    ensures k <= |s|
    ensures k > 0 ==> k == LeadLength(s[0])
    ensures k > 1 ==> s[0] >= 0x80 && forall i :: 1 <= i < k ==> IsContinuation(s[i])
  {
    if s == [] then 0
    else
      var k := LeadLength(s[0]);
      if k > |s| then 0
      else if k >= 2 && !SecondOk(s[0], s[1]) then 0
      else if k >= 3 && !IsContinuation(s[2]) then 0
      else if k >= 4 && !IsContinuation(s[3]) then 0
      else k
  }

  /** What a UTF-8 decoder accepts: a run of well-formed characters. */
  predicate WellFormed(s: Bytes) {
    s == [] || (FirstLength(s) > 0 && WellFormed(s[FirstLength(s)..]))
  }

  /** The six bits a continuation byte carries. */
  function Bits(b: byte): (n: int)
    requires IsContinuation(b)
    ensures 0 <= n < 64 && b == 0x80 + n
  {
    b as int - 0x80
  }

  /** The scalar a well-formed first character encodes. */
  function FirstScalar(s: Bytes): (c: Scalar)
    requires FirstLength(s) > 0
  {
    var k := FirstLength(s);
    var lead: int := s[0];
    if k == 1 then lead
    else if k == 2 then (lead - 0xC0) * 64 + Bits(s[1])
    else if k == 3 then (lead - 0xE0) * 4096 + Bits(s[1]) * 64 + Bits(s[2])
    else (lead - 0xF0) * 262144 + Bits(s[1]) * 4096 + Bits(s[2]) * 64 + Bits(s[3])
  }

  lemma EncodeFirst(s: Bytes)
    requires FirstLength(s) > 0
    ensures Encode(FirstScalar(s)) == s[..FirstLength(s)]
  {
    var k := FirstLength(s);
    if k == 2 {
      SplitBits(s[0] - 0xC0, Bits(s[1]));
    } else if k == 3 {
      SplitBits(s[0] - 0xE0, Bits(s[1]));
      SplitBits((s[0] - 0xE0) * 64 + Bits(s[1]), Bits(s[2]));
    } else if k == 4 {
      EncodeFour(s);
    }
  }

  lemma EncodeFour(s: Bytes)
    requires FirstLength(s) == 4
    ensures Encode(FirstScalar(s)) == s[..4]
  {
    SplitBits(s[0] - 0xF0, Bits(s[1]));
    SplitBits((s[0] - 0xF0) * 64 + Bits(s[1]), Bits(s[2]));
    SplitBits((s[0] - 0xF0) * 4096 + Bits(s[1]) * 64 + Bits(s[2]), Bits(s[3]));
  }

  lemma SplitBits(high: int, low: int)
    requires 0 <= high && 0 <= low < 64
    ensures (high * 64 + low) / 64 == high && (high * 64 + low) % 64 == low
  {
  }

  lemma SecondOfTwo(c: Scalar)
    requires c < 0x800
    ensures LeadLength(Encode(c)[0]) == |Encode(c)|
    ensures c >= 0x80 ==> SecondOk(Encode(c)[0], Encode(c)[1])
  {
    if c >= 0x80 {
      assert Encode(c)[0] == 0xC0 + c / 64;
    }
  }

  lemma SecondOfThree(c: Scalar)
    requires 0x800 <= c < 0x10000
    ensures LeadLength(Encode(c)[0]) == 3 && SecondOk(Encode(c)[0], Encode(c)[1])
  {
    assert Encode(c)[0] == 0xE0 + c / 4096 && Encode(c)[1] == 0x80 + c / 64 % 64;
  }

  lemma SecondOfFour(c: Scalar)
    requires c >= 0x10000
    ensures LeadLength(Encode(c)[0]) == 4 && SecondOk(Encode(c)[0], Encode(c)[1])
  {
    assert Encode(c)[0] == 0xF0 + c / 262144 && Encode(c)[1] == 0x80 + c / 4096 % 64;
  }

  /** The length of an encoding shows in its own bytes, whatever follows it. */
  lemma EncodeLength(c: Scalar, s: Bytes)
    requires Encode(c) <= s
    ensures FirstLength(s) == |Encode(c)|
  {
    var e := Encode(c);
    hide SecondOk;
    assert forall i :: 0 <= i < |e| ==> s[i] == e[i];
    if c < 0x800 {
      SecondOfTwo(c);
    } else if c < 0x10000 {
      SecondOfThree(c);
    } else {
      SecondOfFour(c);
    }
  }

  lemma EncodeScalar(c: Scalar, s: Bytes)
    requires Encode(c) <= s && FirstLength(s) == |Encode(c)|
    ensures FirstScalar(s) == c
  {
    var e := Encode(c);
    hide SecondOk, LeadLength;
    assert forall i :: 0 <= i < |e| ==> s[i] == e[i];
    if c < 0x800 {
      ScalarOfTwo(c);
    } else if c < 0x10000 {
      ScalarOfThree(c);
    } else {
      ScalarOfFour(c);
    }
  }

  lemma ScalarOfTwo(c: Scalar)
    requires c < 0x800
    ensures c >= 0x80 ==> (Encode(c)[0] - 0xC0) * 64 + Bits(Encode(c)[1]) == c
  {
  }

  lemma ScalarOfThree(c: Scalar)
    requires 0x800 <= c < 0x10000
    ensures (Encode(c)[0] - 0xE0) * 4096 + Bits(Encode(c)[1]) * 64 + Bits(Encode(c)[2]) == c
  {
    assert c / 64 == c / 4096 * 64 + c / 64 % 64;
  }

  lemma ScalarOfFour(c: Scalar)
    requires c >= 0x10000
    ensures (Encode(c)[0] - 0xF0) * 262144 + Bits(Encode(c)[1]) * 4096 + Bits(Encode(c)[2]) * 64
            + Bits(Encode(c)[3]) == c
  {
    assert c / 64 == c / 4096 * 64 + c / 64 % 64;
    assert c / 4096 == c / 262144 * 64 + c / 4096 % 64;
  }

  lemma EncodeIsFirst(c: Scalar, rest: Bytes)
    ensures FirstLength(Encode(c) + rest) == |Encode(c)|
    ensures FirstScalar(Encode(c) + rest) == c
  {
    EncodeLength(c, Encode(c) + rest);
    EncodeScalar(c, Encode(c) + rest);
  }

  /** Two encodings that start the same text are the same: no encoding is a prefix of another. */
  lemma EncodePrefix(c: Scalar, rest: Bytes)
    ensures WellFormed(Encode(c) + rest) <==> WellFormed(rest)
  {
    EncodeIsFirst(c, rest);
    assert (Encode(c) + rest)[|Encode(c)|..] == rest;
  }

  function DecodeAll(s: Bytes): (cs: seq<Scalar>)
    requires WellFormed(s)
  {
    if s == [] then [] else [FirstScalar(s)] + DecodeAll(s[FirstLength(s)..])
  }

  /** The decoder's table accepts exactly the encodings of scalar sequences, and decoding
      gives back the sequence. */
  lemma {:induction false} EncodeAllWellFormed(cs: seq<Scalar>)
    ensures WellFormed(EncodeAll(cs))
    ensures DecodeAll(EncodeAll(cs)) == cs
  {
    if cs != [] {
      EncodeAllWellFormed(cs[1..]);
      EncodeIsFirst(cs[0], EncodeAll(cs[1..]));
      EncodePrefix(cs[0], EncodeAll(cs[1..]));
      assert EncodeAll(cs)[|Encode(cs[0])|..] == EncodeAll(cs[1..]);
    }
  }

  lemma EncodeAllCons(c: Scalar, cs: seq<Scalar>)
    ensures EncodeAll([c] + cs) == Encode(c) + EncodeAll(cs)
  {
    assert ([c] + cs)[1..] == cs;
  }

  lemma {:induction false} DecodeAllEncodes(s: Bytes)
    requires WellFormed(s)
    ensures EncodeAll(DecodeAll(s)) == s
  {
    hide Encode, FirstScalar, FirstLength;
    if s != [] {
      var rest := s[FirstLength(s)..];
      DecodeAllEncodes(rest);
      EncodeFirst(s);
      EncodeAllCons(FirstScalar(s), DecodeAll(rest));
    }
  }
}
