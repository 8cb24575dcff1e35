/** URL-encoded form bodies: the size reserved before any value is copied, and why the body never
    outgrows it. */
module Requests {
  import opened Common
  import opened Utf8

  const MAX_FORM: nat := 1024 * 1024
  const USIZE_MAX: nat := 0xFFFF_FFFF_FFFF_FFFF

  type Pairs = seq<(Bytes, Bytes)>

  function CheckedAdd(a: nat, b: nat): Option<nat> {
    if a + b <= USIZE_MAX then Some(a + b) else None
  }

  function CheckedMul(a: nat, b: nat): Option<nat> {
    if a * b <= USIZE_MAX then Some(a * b) else None
  }

  /** The bytes one name and value can take: three for each input byte, and two separators. */
  function PairBound(pair: (Bytes, Bytes)): nat {
    (|pair.0| + |pair.1|) * 3 + 2
  }

  function FieldsBound(fields: Pairs): nat {
    if fields == [] then 0 else FieldsBound(fields[..|fields| - 1]) + PairBound(fields[|fields| - 1])
  }

  lemma {:induction false} BoundGrows(fields: Pairs, n: nat)
    requires n <= |fields|
    ensures FieldsBound(fields[..n]) <= FieldsBound(fields)
    decreases |fields|
  {
    if n == |fields| {
      assert fields[..n] == fields;
    } else {
      assert fields[..|fields| - 1][..n] == fields[..n];
      BoundGrows(fields[..|fields| - 1], n);
    }
  }

  /** Whether a form is small enough to send. */
  predicate Fits(fields: Pairs) {
    FieldsBound(fields) <= MAX_FORM
  }

  /** The checked fold in machine words, against the bound over unbounded integers: it refuses
      exactly the forms whose bound is over the limit, overflow included. */
  method Capacity(fields: Pairs) returns (r: Option<nat>)
    ensures r == if Fits(fields) then Some(FieldsBound(fields)) else None
  {
    var size: nat := 0;
    for i := 0 to |fields|
      invariant size == FieldsBound(fields[..i]) <= USIZE_MAX
    {
      var (name, value) := fields[i];
      assert fields[..i + 1][..i] == fields[..i];
      BoundGrows(fields, i + 1);
      var sum := CheckedAdd(|name|, |value|);
      if sum.None? {
        return None;
      }
      var tripled := CheckedMul(sum.value, 3);
      if tripled.None? {
        return None;
      }
      var padded := CheckedAdd(tripled.value, 2);
      if padded.None? {
        return None;
      }
      var total := CheckedAdd(padded.value, size);
      if total.None? {
        return None;
      }
      size := total.value;
    }
    assert fields[..|fields|] == fields;
    r := if size <= MAX_FORM then Some(size) else None;
  }

  // The encoding itself.

  predicate Unreserved(b: byte) {
    || 0x30 <= b <= 0x39 || 0x41 <= b <= 0x5A || 0x61 <= b <= 0x7A
    || b == 0x2A || b == 0x2D || b == 0x2E || b == 0x5F
  }

  function HexUpper(n: nat): byte
    requires n < 16
  {
    if n < 10 then 0x30 + n else 0x41 + n - 10
  }

  function EncodeByte(b: byte): (r: Bytes)
    ensures 1 <= |r| <= 3
  {
    if Unreserved(b) then [b]
    else if b == 0x20 then [0x2B]
    else [0x25, HexUpper(b / 16), HexUpper(b % 16)]
  }

  function EncodeBytes(s: Bytes): (r: Bytes)
    ensures |r| <= 3 * |s|
  {
    if s == [] then [] else EncodeBytes(s[..|s| - 1]) + EncodeByte(s[|s| - 1])
  }

  function FormBody(fields: Pairs): Bytes {
    if fields == [] then []
    else
      var (name, value) := fields[|fields| - 1];
      FormBody(fields[..|fields| - 1])
      + (if |fields| == 1 then [] else [0x26])
      + EncodeBytes(name) + [0x3D] + EncodeBytes(value)
  }

  /** The encoded body fits the capacity reserved for it, so the buffer that holds the secrets is
      never reallocated. */
  lemma {:induction false} BodyFits(fields: Pairs)
    ensures |FormBody(fields)| <= FieldsBound(fields)
  {
    if fields != [] {
      BodyFits(fields[..|fields| - 1]);
    }
  }

  /** A string's UTF-8 bytes. */
  function StringBytes(s: string): Bytes {
    if s == "" then []
    else
      var n := s[0] as int;
      Encode(n) + StringBytes(s[1..])
  }

  function PairsOf(fields: seq<(string, string)>): Pairs {
    seq(|fields|, i requires 0 <= i < |fields| =>
      (StringBytes(fields[i].0), StringBytes(fields[i].1)))
  }
}
