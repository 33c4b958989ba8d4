/** The canonical form of paste content: internal/paste/canonical.go. */
module Canonical {
  import opened Base
  import Utf8

  const BOM: Bytes := [0xEF, 0xBB, 0xBF]

  datatype CanonicalError = InvalidUtf8 | TooLarge(limit: int, actual: int)

  /** The lowercase hexadecimal SHA-256 digest, kept symbolic: equal digests mean equal data. */
  datatype Digest = Sha256(data: Bytes)

  function HashHex(data: Bytes): Digest {
    Sha256(data)
  }

  predicate HasBOM(data: Bytes) {
    BOM <= data
  }

  function StripBOM(data: Bytes): Bytes {
    if HasBOM(data) then data[|BOM|..] else data
  }

  /** Content with exactly the byte order mark it had, or one added in front. */
  function WithBOM(content: Bytes): Bytes {
    if HasBOM(content) then content else BOM + content
  }

  function Canonicalize(content: Bytes, maxSize: int): Result<Bytes, CanonicalError> {
    if !Utf8.Valid(content) then Err(InvalidUtf8)
    else
      var canonical := WithBOM(content);
      if |canonical| > maxSize then Err(TooLarge(maxSize, |canonical|)) else Ok(canonical)
  }

  lemma BOMIsValid()
    ensures Utf8.Valid(BOM) && HasBOM(BOM)
  {
    assert Utf8.Encode([0xFEFF]) == BOM by {
      assert Utf8.Encode([0xFEFF]) == Utf8.EncodeChar(0xFEFF) + Utf8.Encode([]);
    }
    Utf8.EncodedIsValid([0xFEFF]);
  }

  lemma WithBOMKeepsValidity(content: Bytes)
    ensures HasBOM(WithBOM(content))
    ensures Utf8.Valid(WithBOM(content)) <==> Utf8.Valid(content)
  {
    BOMIsValid();
    Utf8.ValidConcat(BOM, content);
    assert (BOM + content)[..3] == BOM;
  }

  /** What is accepted is valid, marked and within the limit, and canonicalizing it again
      changes nothing. */
  lemma CanonicalForm(content: Bytes, maxSize: int)
    requires Canonicalize(content, maxSize).Ok?
    ensures var c := Canonicalize(content, maxSize).value;
            Utf8.Valid(c) && HasBOM(c) && |c| <= maxSize && Canonicalize(c, maxSize) == Ok(c)
  {
    WithBOMKeepsValidity(content);
  }

  /** Rejection happens exactly for ill-formed bytes, and for well-formed bytes whose
      canonical length (the content's own, plus three when unmarked) is over the limit. */
  lemma Rejection(content: Bytes, maxSize: int)
    ensures Canonicalize(content, maxSize) == Err(InvalidUtf8)
       <==> !exists text :: Utf8.Encode(text) == content
    ensures forall limit, actual ::
              (Canonicalize(content, maxSize) == Err(TooLarge(limit, actual))
               <==> Utf8.Valid(content) && limit == maxSize && actual > limit
                    && actual == |content| + (if HasBOM(content) then 0 else 3))
  {
    Utf8.ValidIffEncoding(content);
  }

  /** Two contents share a canonical form exactly when they are equal or differ by one
      leading mark that the shorter one lacks. */
  lemma CanonicalKernel(a: Bytes, b: Bytes)
    ensures WithBOM(a) == WithBOM(b)
       <==> a == b || (!HasBOM(b) && a == BOM + b) || (!HasBOM(a) && b == BOM + a)
  {
    assert (BOM + a)[3..] == a;
    assert (BOM + b)[3..] == b;
    assert (BOM + a)[..3] == BOM && (BOM + b)[..3] == BOM;
  }

  /** Canonicalizing undoes the removal of the mark exactly when the content after the mark
      does not itself begin with one. */
  lemma CanonicalUndoesStrip(c: Bytes)
    requires HasBOM(c)
    ensures WithBOM(StripBOM(c)) == c <==> !HasBOM(StripBOM(c))
  {
    assert c == BOM + c[3..];
  }

  /** Two marks and nothing else are the smallest content for which it does not. */
  lemma DoubleMarkIsLost()
    ensures HasBOM(BOM + BOM) && WithBOM(StripBOM(BOM + BOM)) != BOM + BOM
    ensures forall c :: HasBOM(c) && WithBOM(StripBOM(c)) != c ==> |c| >= |BOM + BOM| && BOM + BOM <= c
  {
    assert (BOM + BOM)[3..] == BOM;
    forall c | HasBOM(c) && WithBOM(StripBOM(c)) != c ensures |c| >= 6 && BOM + BOM <= c {
      CanonicalUndoesStrip(c);
      assert c == BOM + StripBOM(c);
      assert StripBOM(c) == BOM + StripBOM(c)[3..];
    }
  }
}
