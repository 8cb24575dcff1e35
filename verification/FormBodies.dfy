/** What a form body says to whoever decodes it: the fields it was made from. */
module FormBodies {
  import opened Common
  import opened Utf8
  import opened Text
  import opened Splitting
  import opened Requests

  function HexValue(b: byte): Option<nat> {
    if 0x30 <= b <= 0x39 then Some(b as int - 0x30)
    else if 0x41 <= b <= 0x46 then Some(b as int - 0x41 + 10)
    else if 0x61 <= b <= 0x66 then Some(b as int - 0x61 + 10)
    else None
  }

  function Following(b: byte, rest: Option<Bytes>): Option<Bytes> {
    match rest case Some(s) => Some([b] + s) case None => None
  }

  /** A name or a value as application/x-www-form-urlencoded spells it: a plus is a space, a percent sign
      and two hexadecimal digits are the byte they number, and any other byte is itself. */
  function Decoded(s: Bytes): Option<Bytes> {
    if s == [] then Some([])
    else if s[0] == 0x25 then
      if |s| < 3 then None
      else
        match (HexValue(s[1]), HexValue(s[2]))
        case (Some(high), Some(low)) => Following(high * 16 + low, Decoded(s[3..]))
        case _ => None
    else Following(if s[0] == 0x2B then 0x20 else s[0], Decoded(s[1..]))
  }

  /** A body spells these fields: pieces between ampersands, each a name and a value around its one
      equals sign. */
  predicate Spells(body: Bytes, fields: Pairs) {
    var pieces := Split(body, 0x26);
    && |pieces| == |fields|
    && forall i :: 0 <= i < |pieces| ==>
         var parts := Split(pieces[i], 0x3D);
         && |parts| == 2
         && Decoded(parts[0]) == Some(fields[i].0) && Decoded(parts[1]) == Some(fields[i].1)
  }

  lemma DigitReads(n: nat)
    requires n < 16
    ensures HexValue(HexUpper(n)) == Some(n)
  {
  }

  lemma {:induction false} EncodeCons(b: byte, rest: Bytes)
    ensures EncodeBytes([b] + rest) == EncodeByte(b) + EncodeBytes(rest)
  {
    hide EncodeByte;
    var s := [b] + rest;
    if rest == [] {
      assert s[..|s| - 1] == [];
    } else {
      var front, last := rest[..|rest| - 1], rest[|rest| - 1];
      EncodeCons(b, front);
      assert s[..|s| - 1] == [b] + front;
      assert EncodeByte(b) + EncodeBytes(front) + EncodeByte(last)
          == EncodeByte(b) + (EncodeBytes(front) + EncodeByte(last));
    }
  }

  lemma ByteReads(b: byte, rest: Bytes)
    ensures Decoded(EncodeByte(b) + rest) == Following(b, Decoded(rest))
  {
    var s := EncodeByte(b) + rest;
    if Unreserved(b) || b == 0x20 {
      assert s[1..] == rest;
    } else {
      DigitReads(b / 16);
      DigitReads(b % 16);
      assert s[3..] == rest;
    }
  }

  lemma {:induction false} BytesRead(s: Bytes)
    ensures Decoded(EncodeBytes(s)) == Some(s)
  {
    hide EncodeByte;
    if s != [] {
      BytesRead(s[1..]);
      assert s == [s[0]] + s[1..];
      EncodeCons(s[0], s[1..]);
      ByteReads(s[0], EncodeBytes(s[1..]));
    }
  }

  lemma {:induction false} NoMarks(s: Bytes)
    ensures 0x26 !in EncodeBytes(s) && 0x3D !in EncodeBytes(s)
  {
    if s != [] {
      NoMarks(s[..|s| - 1]);
    }
  }

  function PairText(pair: (Bytes, Bytes)): Bytes {
    EncodeBytes(pair.0) + [0x3D] + EncodeBytes(pair.1)
  }

  lemma PairSplits(pair: (Bytes, Bytes))
    ensures Split(PairText(pair), 0x3D) == [EncodeBytes(pair.0), EncodeBytes(pair.1)]
    ensures 0x26 !in PairText(pair)
  {
    hide EncodeBytes;
    NoMarks(pair.0);
    NoMarks(pair.1);
    SplitAtFirst(EncodeBytes(pair.0), EncodeBytes(pair.1), 0x3D);
    SplitPlain(EncodeBytes(pair.1), 0x3D);
  }

  function PairTexts(fields: Pairs): seq<Bytes> {
    seq(|fields|, i requires 0 <= i < |fields| => PairText(fields[i]))
  }

  lemma {:induction false} BodySplits(fields: Pairs)
    requires fields != []
    ensures Split(FormBody(fields), 0x26) == PairTexts(fields)
  {
    hide EncodeBytes, Split;
    var front, last := fields[..|fields| - 1], fields[|fields| - 1];
    PairSplits(last);
    SplitPlain(PairText(last), 0x26);
    if front == [] {
      assert FormBody(front) == [];
      assert FormBody(fields) == PairText(last);
      assert PairTexts(fields) == [PairText(last)];
    } else {
      BodySplits(front);
      assert FormBody(fields) == FormBody(front) + [0x26] + PairText(last);
      SplitJoin(FormBody(front), PairText(last), 0x26);
      assert PairTexts(fields) == PairTexts(front) + [PairText(last)];
    }
  }

  /** A form's body spells exactly the fields it was made from, in order, whatever bytes they hold. */
  lemma BodySpells(fields: Pairs)
    requires fields != []
    ensures Spells(FormBody(fields), fields)
  {
    hide EncodeBytes, Split, FormBody, Decoded;
    BodySplits(fields);
    forall i | 0 <= i < |fields|
      ensures var parts := Split(PairText(fields[i]), 0x3D);
              && |parts| == 2
              && Decoded(parts[0]) == Some(fields[i].0) && Decoded(parts[1]) == Some(fields[i].1)
    {
      PairSplits(fields[i]);
      BytesRead(fields[i].0);
      BytesRead(fields[i].1);
    }
  }

  lemma SomethingSaid(fields: Pairs)
    requires fields != []
    ensures FormBody(fields) != []
  {
  }

  /** So two forms with the same body have the same fields. */
  lemma BodyTellsFields(a: Pairs, b: Pairs)
    requires FormBody(a) == FormBody(b)
    ensures a == b
  {
    if a != [] && b != [] {
      hide FormBody, Decoded, Split;
      BodySpells(a);
      BodySpells(b);
      forall i | 0 <= i < |a| ensures a[i] == b[i] {
        assert Split(Split(FormBody(a), 0x26)[i], 0x3D) == Split(Split(FormBody(b), 0x26)[i], 0x3D);
      }
    } else if a != [] {
      SomethingSaid(a);
    } else if b != [] {
      SomethingSaid(b);
    }
  }
}
