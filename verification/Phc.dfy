/** The PHC text form of a password hash: internal/crypto/phc.go. */
module Phc {
  import opened Base
  import opened Kdf
  import Decimal
  import Base64

  datatype Phc = Phc(params: Argon2Params, salt: Bytes, key: Bytes)

  /** strings.Split(s, sep) for a one-character separator: always at least one part. */
  function Split(s: string, sep: char): (parts: seq<string>)
    ensures |parts| >= 1
  {
    if s == "" then [""]
    else
      var rest := Split(s[1..], sep);
      if s[0] == sep then [""] + rest else [[s[0]] + rest[0]] + rest[1..]
  }

  /** Parts written one after the other with `sep` between them. */
  function Join(parts: seq<string>, sep: char): (s: string)
    requires |parts| >= 1
  {
    if |parts| == 1 then parts[0] else parts[0] + ([sep] + Join(parts[1..], sep))
  }

  lemma {:induction false} SplitFirst(part: string, sep: char, rest: string)
    requires sep !in part
    ensures Split(part + ([sep] + rest), sep) == [part] + Split(rest, sep)
    ensures Split(part, sep) == [part]
  {
    if part == "" {
      assert (part + ([sep] + rest))[1..] == rest;
    } else {
      SplitFirst(part[1..], sep, rest);
      assert (part + ([sep] + rest))[1..] == part[1..] + ([sep] + rest);
      assert part == [part[0]] + part[1..];
    }
  }

  lemma {:induction false} SplitJoin(parts: seq<string>, sep: char)
    requires |parts| >= 1
    requires forall i :: 0 <= i < |parts| ==> sep !in parts[i]
    ensures Split(Join(parts, sep), sep) == parts
  {
    if |parts| == 1 {
      SplitFirst(parts[0], sep, "");
    } else {
      SplitFirst(parts[0], sep, Join(parts[1..], sep));
      SplitJoin(parts[1..], sep);
      assert parts == [parts[0]] + parts[1..];
    }
  }

  function CostText(p: Argon2Params): (s: string) {
    "m=" + (Decimal.Format(p.memoryKiB) + (",t=" + (Decimal.Format(p.time) + (",p=" + Decimal.Format(p.threads)))))
  }

  /** The Sprintf of HashPassword. */
  function Print(h: Phc): (s: string) {
    Join(["", "argon2id", "v=19", CostText(h.params),
          Base64.Encode(Base64.Std, h.salt), Base64.Encode(Base64.Std, h.key)], '$')
  }

  /** What is left of the input of a scan, with the value read so far. */
  datatype Scanned = Scanned(value: nat, rest: string)

  function SkipBlanks(s: string): (r: string) {
    if s != "" && (s[0] == ' ' || s[0] == '\t') then SkipBlanks(s[1..]) else s
  }

  function ScanLiteral(s: string, literal: string): (r: Option<string>) {
    if literal <= s then Some(s[|literal|..]) else None
  }

  /** A `%d` verb into an unsigned target: blanks are skipped, then the longest run of
      digits is read; an empty run or a value over `max` is an error. */
  function ScanUint(s: string, max: nat): (r: Option<Scanned>)
    ensures r.Some? ==> r.value.value <= max
  {
    var t := SkipBlanks(s);
    var k := Decimal.DigitRun(t);
    if k == 0 || Decimal.Value(t[..k]) > max then None
    else Some(Scanned(Decimal.Value(t[..k]), t[k..]))
  }

  /** A literal followed by a `%d` verb. */
  function ScanField(s: string, literal: string, max: nat): (r: Option<Scanned>)
    ensures r.Some? ==> r.value.value <= max
  {
    var rest := ScanLiteral(s, literal);
    if rest.None? then None else ScanUint(rest.value, max)
  }

  /** Sscanf(s, "m=%d,t=%d,p=%d"): text after the last number is left unread. */
  function ScanCosts(s: string): (r: Option<Argon2Params>) {
    var m := ScanField(s, "m=", 0xffff_ffff);
    if m.None? then None
    else
      var t := ScanField(m.value.rest, ",t=", 0xffff_ffff);
      if t.None? then None
      else
        var p := ScanField(t.value.rest, ",p=", 0xff);
        if p.None? then None
        else Some(Argon2Params(t.value.value, m.value.value, p.value.value))
  }

  /** The parsing half of VerifyPassword. */
  function Parse(s: string): (r: Option<Phc>) {
    var parts := Split(s, '$');
    if |parts| != 6 || parts[1] != "argon2id" || parts[2] != "v=19" then None
    else
      var params := ScanCosts(parts[3]);
      var salt := Base64.Decode(Base64.Std, parts[4]);
      var key := Base64.Decode(Base64.Std, parts[5]);
      if params.None? || salt.None? || key.None? then None
      else Some(Phc(params.value, salt.value, key.value))
  }

  lemma ScanFieldOfPrinted(literal: string, n: nat, max: nat, rest: string)
    requires n <= max
    requires rest == "" || !Decimal.IsDigit(rest[0])
    ensures ScanField(literal + (Decimal.Format(n) + rest), literal, max) == Some(Scanned(n, rest))
  {
    var digits := Decimal.Format(n);
    var t := digits + rest;
    var s := literal + t;
    assert s[..|literal|] == literal;
    assert s[|literal|..] == t;
    assert Decimal.IsDigit(t[0]);
    Decimal.DigitRunOfConcat(digits, rest);
    assert t[..|digits|] == digits;
    assert t[|digits|..] == rest;
  }

  lemma ScanCostText(p: Argon2Params)
    ensures ScanCosts(CostText(p)) == Some(p)
  {
    var threads := Decimal.Format(p.threads);
    var last := ",p=" + threads;
    var middle := ",t=" + (Decimal.Format(p.time) + last);
    ScanFieldOfPrinted("m=", p.memoryKiB, 0xffff_ffff, middle);
    ScanFieldOfPrinted(",t=", p.time, 0xffff_ffff, last);
    assert threads + "" == threads;
    ScanFieldOfPrinted(",p=", p.threads, 0xff, "");
  }

  lemma NoDollar(p: Argon2Params, b: Bytes)
    ensures '$' !in CostText(p)
    ensures '$' !in Base64.Encode(Base64.Std, b)
  {
    var m, t, q := Decimal.Format(p.memoryKiB), Decimal.Format(p.time), Decimal.Format(p.threads);
    assert '$' !in m && '$' !in t && '$' !in q;
  }

  lemma SplitPrinted(h: Phc)
    ensures Split(Print(h), '$') == ["", "argon2id", "v=19", CostText(h.params),
                                     Base64.Encode(Base64.Std, h.salt), Base64.Encode(Base64.Std, h.key)]
  {
    NoDollar(h.params, h.salt);
    NoDollar(h.params, h.key);
    SplitJoin(["", "argon2id", "v=19", CostText(h.params),
               Base64.Encode(Base64.Std, h.salt), Base64.Encode(Base64.Std, h.key)], '$');
  }

  /** Parsing recovers every cost triple, salt and key from the printed form. */
  lemma ParsePrint(h: Phc)
    ensures Parse(Print(h)) == Some(h)
  {
    SplitPrinted(h);
    ScanCostText(h.params);
    Base64.DecodeEncode(Base64.Std, h.salt);
    Base64.DecodeEncode(Base64.Std, h.key);
  }

  datatype PhcError = Malformed | Derivation(error: KdfError)

  /** HashPassword with the salt it drew; no exit leaves a byte of the derived key behind. */
  method HashPassword(g: Gate, ready: Ready, kdf: KdfFunction, password: Bytes, salt: Bytes, p: Argon2Params)
    returns (r: Result<string, PhcError>)
    requires g.Valid()
    modifies g
    ensures g.Valid() && g.slots == old(g.slots)
    ensures r.Ok? <==> ready.SlotFree? && old(g.slots) < g.capacity
    ensures r.Ok? ==> r.value == Print(Phc(p, salt, kdf(password, salt, p)))
    ensures r.Ok? ==> Parse(r.value) == Some(Phc(p, salt, kdf(password, salt, p)))
    ensures forall q: array<Byte> :: allocated(q) && fresh(q) ==> IsZero(q)
  {
    var derived := DeriveKey(g, ready, kdf, password, salt, p);
    if derived.Err? {
      return Err(Derivation(derived.error));
    }
    var h := Phc(p, salt, derived.value[..]);
    r := Ok(Print(h));
    ParsePrint(h);
    Zero(derived.value);
  }

  /** VerifyPassword: a well-formed hash matches exactly when the password derives its key; no
      exit leaves a byte of it behind. */
  method VerifyPassword(g: Gate, ready: Ready, kdf: KdfFunction, phc: string, password: Bytes)
    returns (r: Result<bool, PhcError>)
    requires g.Valid()
    modifies g
    ensures g.Valid() && g.slots == old(g.slots)
    ensures r == Err(Malformed) <==> Parse(phc).None?
    ensures r.Ok? <==> Parse(phc).Some? && ready.SlotFree? && old(g.slots) < g.capacity
    ensures r.Ok? ==> (r.value
                       <==> kdf(password, Parse(phc).value.salt, Parse(phc).value.params) == Parse(phc).value.key)
    ensures forall q: array<Byte> :: allocated(q) && fresh(q) ==> IsZero(q)
  {
    var parsed := Parse(phc);
    if parsed.None? {
      return Err(Malformed);
    }
    var want := parsed.value;
    var derived := DeriveKey(g, ready, kdf, password, want.salt, want.params);
    if derived.Err? {
      return Err(Derivation(derived.error));
    }
    r := Ok(derived.value[..] == want.key);
    Zero(derived.value);
  }

  /** A password always verifies against its own hash, and another password does so exactly
      when Argon2id maps both to one key. */
  method HashThenVerify(g: Gate, kdf: KdfFunction, password: Bytes, attempt: Bytes, salt: Bytes, p: Argon2Params)
    returns (matched: bool)
    requires g.Valid() && g.slots < g.capacity
    modifies g
    ensures matched <==> kdf(attempt, salt, p) == kdf(password, salt, p)
    ensures attempt == password ==> matched
  {
    var hash := HashPassword(g, SlotFree, kdf, password, salt, p);
    var answer := VerifyPassword(g, SlotFree, kdf, hash.value, attempt);
    matched := answer.value;
  }
}
