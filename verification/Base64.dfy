/** Unpadded base64 as Go's `RawStdEncoding` and `RawURLEncoding` write and read it:
    sections 3.2, 4 and 5 of RFC 4648. */
module Base64 {
  import opened Base

  /** Which 64-character alphabet is in use; they differ in the last two characters. */
  datatype Alphabet = Std | Url

  type Sextet = v: int | 0 <= v < 64

  function CharOf(a: Alphabet, v: Sextet): (c: char) {
    if v < 26 then ('A' as int + v) as char
    else if v < 52 then ('a' as int + (v - 26)) as char
    else if v < 62 then ('0' as int + (v - 52)) as char
    else if v == 62 then (if a.Std? then '+' else '-')
    else if a.Std? then '/' else '_'
  }

  function SextetOf(a: Alphabet, c: char): (r: Option<Sextet>) {
    if 'A' <= c <= 'Z' then Some(c as int - 'A' as int)
    else if 'a' <= c <= 'z' then Some(c as int - 'a' as int + 26)
    else if '0' <= c <= '9' then Some(c as int - '0' as int + 52)
    else if c == (if a.Std? then '+' else '-') then Some(62)
    else if c == (if a.Std? then '/' else '_') then Some(63)
    else None
  }

  predicate InAlphabet(a: Alphabet, s: string) {
    forall i :: 0 <= i < |s| ==> SextetOf(a, s[i]).Some?
  }

  lemma SextetOfChar(a: Alphabet, v: Sextet)
    ensures SextetOf(a, CharOf(a, v)) == Some(v)
  {
  }

  // The four sextets of three bytes, and the three bytes of four sextets.
  function S0(b0: Byte): Sextet { b0 / 4 }
  function S1(b0: Byte, b1: Byte): Sextet { b0 % 4 * 16 + b1 / 16 }
  function S2(b1: Byte, b2: Byte): Sextet { b1 % 16 * 4 + b2 / 64 }
  function S3(b2: Byte): Sextet { b2 % 64 }

  function B0(v0: Sextet, v1: Sextet): Byte { 4 * (v0 as int) + v1 / 16 }
  function B1(v1: Sextet, v2: Sextet): Byte { 16 * (v1 % 16) as int + v2 / 4 }
  function B2(v2: Sextet, v3: Sextet): Byte { 64 * (v2 % 4) as int + v3 }

  /** Three bytes and four sextets carry the same 24 bits. */
  lemma RegroupBits(b0: Byte, b1: Byte, b2: Byte)
    ensures B0(S0(b0), S1(b0, b1)) == b0
    ensures B1(S1(b0, b1), S2(b1, b2)) == b1
    ensures B2(S2(b1, b2), S3(b2)) == b2
  {
  }

  /** Regroups bytes into sextets; a short final group is filled with zero bits. */
  function ToSextets(b: Bytes): (v: seq<Sextet>) {
    if |b| == 0 then []
    else if |b| == 1 then [S0(b[0]), S1(b[0], 0)]
    else if |b| == 2 then [S0(b[0]), S1(b[0], b[1]), S2(b[1], 0)]
    else [S0(b[0]), S1(b[0], b[1]), S2(b[1], b[2]), S3(b[2])] + ToSextets(b[3..])
  }

  /** Regroups sextets into bytes.  A lone trailing sextet is corrupt; the unused low bits
      of a short final group are ignored, as in Go's non-strict mode. */
  function FromSextets(v: seq<Sextet>): (r: Option<Bytes>) {
    if |v| == 0 then Some([])
    else if |v| == 1 then None
    else if |v| == 2 then Some([B0(v[0], v[1])])
    else if |v| == 3 then Some([B0(v[0], v[1]), B1(v[1], v[2])])
    else
      var rest := FromSextets(v[4..]);
      if rest.None? then None
      else Some([B0(v[0], v[1]), B1(v[1], v[2]), B2(v[2], v[3])] + rest.value)
  }

  lemma FromFullGroup(v0: Sextet, v1: Sextet, v2: Sextet, v3: Sextet, rest: seq<Sextet>)
    ensures FromSextets([v0, v1, v2, v3] + rest)
         == if FromSextets(rest).None? then None
            else Some([B0(v0, v1), B1(v1, v2), B2(v2, v3)] + FromSextets(rest).value)
  {
    assert ([v0, v1, v2, v3] + rest)[4..] == rest;
  }

  lemma FromPair(b0: Byte, b1: Byte)
    ensures FromSextets([S0(b0), S1(b0, b1)]) == Some([b0])
  {
    RegroupBits(b0, b1, b1);
  }

  lemma FromTriple(b0: Byte, b1: Byte, b2: Byte)
    ensures FromSextets([S0(b0), S1(b0, b1), S2(b1, b2)]) == Some([b0, b1])
  {
    RegroupBits(b0, b1, b2);
  }

  lemma FromLongGroup(b0: Byte, b1: Byte, b2: Byte, rest: seq<Sextet>)
    ensures FromSextets([S0(b0), S1(b0, b1), S2(b1, b2), S3(b2)] + rest)
         == if FromSextets(rest).None? then None else Some([b0, b1, b2] + FromSextets(rest).value)
  {
    FromFullGroup(S0(b0), S1(b0, b1), S2(b1, b2), S3(b2), rest);
    RegroupBits(b0, b1, b2);
  }

  lemma {:induction false} FromToSextets(b: Bytes)
    ensures FromSextets(ToSextets(b)) == Some(b)
  {
    if |b| == 1 {
      FromPair(b[0], 0);
      assert b == [b[0]];
    } else if |b| == 2 {
      FromTriple(b[0], b[1], 0);
      assert b == [b[0], b[1]];
    } else if |b| >= 3 {
      FromToSextets(b[3..]);
      FromLongGroup(b[0], b[1], b[2], ToSextets(b[3..]));
      assert b == [b[0], b[1], b[2]] + b[3..];
    }
  }

  function ToText(a: Alphabet, v: seq<Sextet>): (s: string)
    ensures InAlphabet(a, s)
  {
    if v == [] then "" else [CharOf(a, v[0])] + ToText(a, v[1..])
  }

  function FromText(a: Alphabet, s: string): (r: Option<seq<Sextet>>) {
    if s == "" then Some([])
    else
      var first, rest := SextetOf(a, s[0]), FromText(a, s[1..]);
      if first.None? || rest.None? then None else Some([first.value] + rest.value)
  }

  lemma {:induction false} FromToText(a: Alphabet, v: seq<Sextet>)
    ensures FromText(a, ToText(a, v)) == Some(v)
  {
    if v != [] {
      SextetOfChar(a, v[0]);
      FromToText(a, v[1..]);
      assert ToText(a, v)[1..] == ToText(a, v[1..]);
      assert v == [v[0]] + v[1..];
    }
  }

  /** Encoding.EncodeToString, unpadded. */
  function Encode(a: Alphabet, b: Bytes): (s: string)
    ensures InAlphabet(a, s)
  {
    ToText(a, ToSextets(b))
  }

  function StripLineBreaks(s: string): (r: string)
    ensures |r| <= |s|
  {
    if s == "" then ""
    else (if s[0] == '\r' || s[0] == '\n' then "" else [s[0]]) + StripLineBreaks(s[1..])
  }

  lemma {:induction false} StripLineBreaksIdentity(a: Alphabet, s: string)
    requires InAlphabet(a, s)
    ensures StripLineBreaks(s) == s
  {
    if s != "" {
      assert SextetOf(a, s[0]).Some?;
      forall i | 0 <= i < |s[1..]| ensures SextetOf(a, s[1..][i]).Some? {
        assert s[1..][i] == s[i + 1];
      }
      StripLineBreaksIdentity(a, s[1..]);
    }
  }

  /** Encoding.DecodeString: carriage returns and line feeds are skipped. */
  function Decode(a: Alphabet, s: string): (r: Option<Bytes>) {
    var v := FromText(a, StripLineBreaks(s));
    if v.None? then None else FromSextets(v.value)
  }

  /** Decoding undoes encoding, for every byte string and either alphabet. */
  lemma DecodeEncode(a: Alphabet, b: Bytes)
    ensures Decode(a, Encode(a, b)) == Some(b)
  {
    StripLineBreaksIdentity(a, Encode(a, b));
    FromToText(a, ToSextets(b));
    FromToSextets(b);
  }
}
