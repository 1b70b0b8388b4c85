/** UTF-8, section 3 of RFC 3629: what Python's strict codec encodes and decodes. A text is a sequence of Unicode scalar
    values, an offset counts the bytes of the encoded characters before it. */
module Utf8 {
  import opened Prelude

  /** A Unicode scalar value: a code point that is not a surrogate. */
  type CodePoint = n: int | 0 <= n <= 0xD7FF || 0xE000 <= n <= 0x10FFFF

  type Byte = n: int | 0 <= n < 0x100

  type Text = seq<CodePoint>

  function EncodeOne(c: CodePoint): (bytes: seq<Byte>)
    ensures 1 <= |bytes| <= 4
  {
    if c < 0x80 then [c]
    else if c < 0x800 then [0xC0 + c / 0x40, 0x80 + c % 0x40]
    else if c < 0x10000 then [0xE0 + c / 0x1000, 0x80 + c / 0x40 % 0x40, 0x80 + c % 0x40]
    else [0xF0 + c / 0x40000, 0x80 + c / 0x1000 % 0x40, 0x80 + c / 0x40 % 0x40, 0x80 + c % 0x40]
  }

  /** `text.encode("utf-8")`. */
  function Encode(text: Text): seq<Byte> {
    if text == [] then [] else EncodeOne(text[0]) + Encode(text[1..])
  }

  predicate IsContinuation(b: Byte) {
    0x80 <= b < 0xC0
  }

  /** A byte without its marker bits. */
  function Payload(b: Byte, marker: int): int {
    b - marker
  }

  /** The scalar value at the front of `bytes` and its length, rejecting overlong forms and surrogates. */
  function DecodeOne(bytes: seq<Byte>): (r: Option<(CodePoint, nat)>)
    ensures r.Some? ==> 1 <= r.value.1 <= |bytes|
  {
    var n := |bytes|;
    if n == 0 then None
    else if bytes[0] < 0x80 then Some((bytes[0], 1))
    else if 0xC0 <= bytes[0] < 0xE0 && n >= 2 && IsContinuation(bytes[1]) then
      var c := Payload(bytes[0], 0xC0) * 0x40 + Payload(bytes[1], 0x80);
      if c < 0x80 then None else Some((c, 2))
    else if 0xE0 <= bytes[0] < 0xF0 && n >= 3 && IsContinuation(bytes[1]) && IsContinuation(bytes[2]) then
      var c := Payload(bytes[0], 0xE0) * 0x1000 + Payload(bytes[1], 0x80) * 0x40 + Payload(bytes[2], 0x80);
      if c < 0x800 || 0xD800 <= c < 0xE000 then None else Some((c, 3))
    else if 0xF0 <= bytes[0] < 0xF8 && n >= 4
            && IsContinuation(bytes[1]) && IsContinuation(bytes[2]) && IsContinuation(bytes[3]) then
      var c := Payload(bytes[0], 0xF0) * 0x40000 + Payload(bytes[1], 0x80) * 0x1000 + Payload(bytes[2], 0x80) * 0x40
               + Payload(bytes[3], 0x80);
      if c < 0x10000 || c > 0x10FFFF then None else Some((c, 4))
    else None
  }

  function Decode(bytes: seq<Byte>): Option<Text>
    decreases |bytes|
  {
    if bytes == [] then Some([])
    else match DecodeOne(bytes)
      case None => None
      case Some((c, n)) =>
        match Decode(bytes[n..])
        case None => None
        case Some(rest) => Some([c] + rest)
  }

  lemma Digits64(c: nat)
    ensures c == c / 0x40 * 0x40 + c % 0x40
    ensures c / 0x1000 == c / 0x40 / 0x40
    ensures c / 0x40000 == c / 0x40 / 0x40 / 0x40
  {
  }

  lemma DecodeOneInvertsEncodeOne(c: CodePoint, rest: seq<Byte>)
    ensures DecodeOne(EncodeOne(c) + rest) == Some((c, |EncodeOne(c)|))
  {
    var bytes := EncodeOne(c) + rest;
    Digits64(c);
    Digits64(c / 0x40);
    Digits64(c / 0x1000);
    assert forall i | 0 <= i < |EncodeOne(c)| :: bytes[i] == EncodeOne(c)[i];
  }

  lemma {:induction false} DecodeInvertsEncode(text: Text)
    ensures Decode(Encode(text)) == Some(text)
  {
    if text != [] {
      var head, rest := EncodeOne(text[0]), Encode(text[1..]);
      DecodeOneInvertsEncodeOne(text[0], rest);
      assert (head + rest)[|head|..] == rest;
      DecodeInvertsEncode(text[1..]);
      assert [text[0]] + text[1..] == text;
    }
  }

  lemma {:induction false} EncodeConcat(a: Text, b: Text)
    ensures Encode(a + b) == Encode(a) + Encode(b)
  {
    if a == [] {
      assert a + b == b;
    } else {
      assert (a + b)[1..] == a[1..] + b;
      EncodeConcat(a[1..], b);
    }
  }

  /** The number of bytes in front of character `i`. */
  function Offset(text: Text, i: nat): nat
    requires i <= |text|
  {
    |Encode(text[..i])|
  }

  predicate IsBoundary(bytes: seq<Byte>, at: nat) {
    at <= |bytes| && (at < |bytes| ==> !IsContinuation(bytes[at]))
  }

  /** Slicing the encoding between the offsets of two characters gives the encoding of the characters
      between them; both offsets are boundaries, and the slice decodes to exactly those characters. */
  lemma {:induction false} SliceIsTheSubstring(text: Text, i: nat, j: nat)
    requires i <= j <= |text|
    ensures Offset(text, i) <= Offset(text, j) <= |Encode(text)|
    ensures Encode(text)[Offset(text, i)..Offset(text, j)] == Encode(text[i..j])
    ensures Decode(Encode(text)[Offset(text, i)..Offset(text, j)]) == Some(text[i..j])
    ensures IsBoundary(Encode(text), Offset(text, i)) && IsBoundary(Encode(text), Offset(text, j))
  {
    assert text[..j] == text[..i] + text[i..j];
    EncodeConcat(text[..i], text[i..j]);
    assert text == text[..j] + text[j..];
    EncodeConcat(text[..j], text[j..]);
    DecodeInvertsEncode(text[i..j]);
    OffsetIsBoundary(text, i);
    OffsetIsBoundary(text, j);
  }

  lemma {:induction false} OffsetIsBoundary(text: Text, i: nat)
    requires i <= |text|
    ensures IsBoundary(Encode(text), Offset(text, i))
  {
    assert text == text[..i] + text[i..];
    EncodeConcat(text[..i], text[i..]);
    if i < |text| {
      assert Encode(text[i..]) == EncodeOne(text[i]) + Encode(text[i..][1..]);
      assert Encode(text)[Offset(text, i)] == EncodeOne(text[i])[0];
    }
  }

  lemma OffsetsGrow(text: Text, i: nat, j: nat)
    requires i <= j <= |text|
    ensures Offset(text, i) <= Offset(text, j)
    ensures i < j ==> Offset(text, i) < Offset(text, j)
  {
    assert text[..j] == text[..i] + text[i..j];
    EncodeConcat(text[..i], text[i..j]);
  }
}
