/** Well-formed UTF-8 (sections 3 and 4 of RFC 3629), as utf8.ValidString accepts it. */
module Utf8 {
  import opened Base

  /** A Unicode scalar value: a code point that is not a surrogate. */
  type Scalar = n: int | 0 <= n < 0xD800 || 0xE000 <= n < 0x11_0000

  predicate Within(b: Bytes, i: nat, lo: int, hi: int) {
    i < |b| && lo <= b[i] <= hi
  }

  predicate Tail(b: Bytes, i: nat) {
    Within(b, i, 0x80, 0xBF)
  }

  /** Length of the well-formed character `b` starts with, or 0 when there is none: the
      byte ranges of the grammar in section 4 of RFC 3629. */
  function CharLen(b: Bytes): (k: nat)
    ensures k <= 4 && k <= |b|
  {
    if |b| == 0 then 0
    else if b[0] <= 0x7F then 1
    else if 0xC2 <= b[0] <= 0xDF && Tail(b, 1) then 2
    else if b[0] == 0xE0 && Within(b, 1, 0xA0, 0xBF) && Tail(b, 2) then 3
    else if 0xE1 <= b[0] <= 0xEC && Tail(b, 1) && Tail(b, 2) then 3
    else if b[0] == 0xED && Within(b, 1, 0x80, 0x9F) && Tail(b, 2) then 3
    else if 0xEE <= b[0] <= 0xEF && Tail(b, 1) && Tail(b, 2) then 3
    else if b[0] == 0xF0 && Within(b, 1, 0x90, 0xBF) && Tail(b, 2) && Tail(b, 3) then 4
    else if 0xF1 <= b[0] <= 0xF3 && Tail(b, 1) && Tail(b, 2) && Tail(b, 3) then 4
    else if b[0] == 0xF4 && Within(b, 1, 0x80, 0x8F) && Tail(b, 2) && Tail(b, 3) then 4
    else 0
  }

  /** utf8.ValidString. */
  predicate Valid(b: Bytes) {
    b == [] || (CharLen(b) > 0 && Valid(b[CharLen(b)..]))
  }

  /** utf8.RuneCountInString of valid text. */
  function RuneCount(b: Bytes): (n: nat)
    requires Valid(b)
  {
    if b == [] then 0 else 1 + RuneCount(b[CharLen(b)..])
  }

  /** Section 3 of RFC 3629: the encoding of one scalar value. */
  function EncodeChar(n: Scalar): (b: Bytes) {
    if n < 0x80 then [n]
    else if n < 0x800 then [0xC0 + n / 64, 0x80 + n % 64]
    else if n < 0x1_0000 then [0xE0 + n / 4096, 0x80 + n / 64 % 64, 0x80 + n % 64]
    else [0xF0 + n / 262144, 0x80 + n / 4096 % 64, 0x80 + n / 64 % 64, 0x80 + n % 64]
  }

  function Encode(text: seq<Scalar>): (b: Bytes) {
    if text == [] then [] else EncodeChar(text[0]) + Encode(text[1..])
  }

  /** Appending text does not change the character at the front. */
  lemma CharLenOfConcat(a: Bytes, b: Bytes)
    requires CharLen(a) > 0
    ensures CharLen(a + b) == CharLen(a)
  {
    forall i | 0 <= i < |a| ensures (a + b)[i] == a[i] {
    }
  }

  lemma CharLenOfEncoded(n: Scalar)
    ensures CharLen(EncodeChar(n)) == |EncodeChar(n)| > 0
  {
  }

  /** The scalar value of a well-formed character is the one that encodes to it. */
  lemma CharHasScalar(b: Bytes) returns (n: Scalar)
    requires CharLen(b) > 0
    ensures b[..CharLen(b)] == EncodeChar(n)
  {
    var k := CharLen(b);
    if k == 1 {
      n := b[0];
    } else if k == 2 {
      n := TwoBytes(b[0], b[1]);
    } else if k == 3 {
      n := ThreeBytes(b[0], b[1], b[2]);
    } else {
      n := FourBytes(b[0], b[1], b[2], b[3]);
    }
  }

  lemma TwoBytes(b0: Byte, b1: Byte) returns (n: Scalar)
    requires 0xC2 <= b0 <= 0xDF && 0x80 <= b1 <= 0xBF
    ensures EncodeChar(n) == [b0, b1]
  {
    var v: int := 64 * (b0 as int - 0xC0) + (b1 - 0x80);
    n := v;
    assert v / 64 == b0 - 0xC0 && v % 64 == b1 - 0x80;
  }

  lemma ThreeBytes(b0: Byte, b1: Byte, b2: Byte) returns (n: Scalar)
    requires 0xE0 <= b0 <= 0xEF && 0x80 <= b1 <= 0xBF && 0x80 <= b2 <= 0xBF
    requires b0 == 0xE0 ==> 0xA0 <= b1
    requires b0 == 0xED ==> b1 <= 0x9F
    ensures EncodeChar(n) == [b0, b1, b2]
  {
    var high: int := 64 * (b0 as int - 0xE0) + (b1 - 0x80);
    var v: int := 64 * high + (b2 - 0x80);
    assert v / 64 == high && v % 64 == b2 - 0x80;
    assert high / 64 == b0 - 0xE0 && high % 64 == b1 - 0x80;
    assert v / 4096 == high / 64;
    n := v;
  }

  lemma FourBytes(b0: Byte, b1: Byte, b2: Byte, b3: Byte) returns (n: Scalar)
    requires 0xF0 <= b0 <= 0xF4 && 0x80 <= b1 <= 0xBF && 0x80 <= b2 <= 0xBF && 0x80 <= b3 <= 0xBF
    requires b0 == 0xF0 ==> 0x90 <= b1
    requires b0 == 0xF4 ==> b1 <= 0x8F
    ensures EncodeChar(n) == [b0, b1, b2, b3]
  {
    var top: int := 64 * (b0 as int - 0xF0) + (b1 - 0x80);
    var high: int := 64 * top + (b2 - 0x80);
    var v: int := 64 * high + (b3 - 0x80);
    assert v / 64 == high && v % 64 == b3 - 0x80;
    assert high / 64 == top && high % 64 == b2 - 0x80;
    assert top / 64 == b0 - 0xF0 && top % 64 == b1 - 0x80;
    assert v / 4096 == high / 64 && v / 262144 == top / 64;
    n := v;
  }

  /** Encoded text is accepted, one rune per scalar value. */
  lemma {:induction false} EncodedIsValid(text: seq<Scalar>)
    ensures Valid(Encode(text)) && RuneCount(Encode(text)) == |text|
  {
    if text != [] {
      var first, rest := EncodeChar(text[0]), Encode(text[1..]);
      CharLenOfEncoded(text[0]);
      CharLenOfConcat(first, rest);
      assert (first + rest)[|first|..] == rest;
      EncodedIsValid(text[1..]);
    }
  }

  /** Accepted bytes are the encoding of some scalar values. */
  lemma {:induction false} ValidIsEncoded(b: Bytes) returns (text: seq<Scalar>)
    requires Valid(b)
    ensures Encode(text) == b
  {
    if b == [] {
      text := [];
    } else {
      var k := CharLen(b);
      var n := CharHasScalar(b);
      var rest := ValidIsEncoded(b[k..]);
      text := [n] + rest;
      assert text[1..] == rest;
      assert b == b[..k] + b[k..];
    }
  }

  /** The grammar accepts exactly the encodings of sequences of scalar values. */
  lemma ValidIffEncoding(b: Bytes)
    ensures Valid(b) <==> exists text :: Encode(text) == b
  {
    if Valid(b) {
      var text := ValidIsEncoded(b);
    }
    forall text | Encode(text) == b ensures Valid(b) {
      EncodedIsValid(text);
    }
  }

  lemma {:induction false} ValidConcat(a: Bytes, b: Bytes)
    requires Valid(a)
    ensures Valid(a + b) <==> Valid(b)
  {
    if a == [] {
      assert a + b == b;
    } else {
      var k := CharLen(a);
      CharLenOfConcat(a, b);
      assert (a + b)[k..] == a[k..] + b;
      ValidConcat(a[k..], b);
    }
  }
}
