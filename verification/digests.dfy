/** Content digests, their hexadecimal text and the agreement of the two orders. */
module Digests {
  import opened Bytes
  import opened Wrappers

  const DIGEST_BYTES := 32

  type Digest = d: seq<Byte> | |d| == DIGEST_BYTES witness seq(DIGEST_BYTES, _ => 0 as Byte)

  /** BLAKE3 is not computed here: theorems hold for every total function with digests as values. */
  type Hasher = Text -> Digest

  function Digit(n: Byte): (c: Byte)
    requires n < 16
    ensures 48 <= c < 58 || 97 <= c < 103
  {
    if n < 10 then 48 + n else 87 + n
  }

  /** Two lower-case digits per byte, most significant first. */
  function Hex(bytes: Text): (t: Text)
    ensures |t| == 2 * |bytes|
  {
    if bytes == [] then [] else [Digit(bytes[0] / 16), Digit(bytes[0] % 16)] + Hex(bytes[1..])
  }

  /** The SQL order of digest text is the derived order of digest bytes. */
  lemma {:induction false} HexKeepsOrder(a: Text, b: Text)
    ensures Less(Hex(a), Hex(b)) <==> Less(a, b)
  {
    if a != [] && b != [] {
      var s, t := Hex(a), Hex(b);
      assert s[1..] == [Digit(a[0] % 16)] + Hex(a[1..]) && t[1..] == [Digit(b[0] % 16)] + Hex(b[1..]);
      assert s[1..][1..] == Hex(a[1..]) && t[1..][1..] == Hex(b[1..]);
      HexKeepsOrder(a[1..], b[1..]);
      assert a[0] == 16 * (a[0] / 16) + a[0] % 16 && b[0] == 16 * (b[0] / 16) + b[0] % 16;
    }
  }

  lemma {:induction false} HexInjective(a: Text, b: Text)
    requires Hex(a) == Hex(b)
    ensures a == b
  {
    HexKeepsOrder(a, b);
    HexKeepsOrder(b, a);
    LessIrreflexive(Hex(a));
    LessTotal(a, b);
  }

  predicate IsHexDigit(c: Byte) { 48 <= c < 58 || 97 <= c < 103 }

  function Nibble(c: Byte): (r: Option<Byte>)
    ensures r.Some? <==> IsHexDigit(c)
    ensures r.Some? ==> r.value < 16 && Digit(r.value) == c
  {
    if 48 <= c < 58 then Some(c - 48) else if 97 <= c < 103 then Some(c - 87) else None
  }

  lemma {:induction false} HexDigits(bytes: Text)
    ensures forall i :: 0 <= i < 2 * |bytes| ==> IsHexDigit(Hex(bytes)[i])
  {
    if bytes != [] { HexDigits(bytes[1..]); }
  }

  lemma {:induction false} HexAppend(bytes: Text, b: Byte)
    ensures Hex(bytes + [b]) == Hex(bytes) + [Digit(b / 16), Digit(b % 16)]
  {
    if bytes == [] {
      assert bytes + [b] == [b] && Hex([]) == [];
    } else {
      assert (bytes + [b])[1..] == bytes[1..] + [b];
      HexAppend(bytes[1..], b);
    }
  }

  datatype ParseError = InvalidLength(actual: nat) | InvalidCharacter(index: nat)

  /**
   * Parsing inverts printing. It succeeds on exactly the texts that printing produces; otherwise
   * it names the length or the first character that is not a lower-case digit.
   */
  method ParseDigest(text: Text) returns (r: Result<Digest, ParseError>)
    ensures r.Success? ==> Hex(r.value) == text
    ensures r.Failure? && r.error.InvalidLength? ==> r.error.actual == |text| != 2 * DIGEST_BYTES
    ensures r.Failure? && r.error.InvalidCharacter? ==>
              && |text| == 2 * DIGEST_BYTES && r.error.index < |text| && !IsHexDigit(text[r.error.index])
              && forall j :: 0 <= j < r.error.index ==> IsHexDigit(text[j])
    ensures r.Failure? ==> forall d: Digest :: Hex(d) != text
  {
    hide Hex, Digit;
    if |text| != 2 * DIGEST_BYTES {
      return Failure(InvalidLength(|text|));
    }
    var bytes := new Byte[DIGEST_BYTES](_ => 0);
    HexNothing();
    for index := 0 to DIGEST_BYTES
      invariant Hex(bytes[..index]) == text[..2 * index]
      invariant forall j :: 0 <= j < 2 * index ==> IsHexDigit(text[j])
    {
      var high := Nibble(text[2 * index]);
      if high.None? {
        ByDigits(text, 2 * index);
        return Failure(InvalidCharacter(2 * index));
      }
      var low := Nibble(text[2 * index + 1]);
      if low.None? {
        ByDigits(text, 2 * index + 1);
        return Failure(InvalidCharacter(2 * index + 1));
      }
      var byte := 16 * high.value + low.value;
      bytes[index] := byte;
      Nibbles(high.value, low.value);
      HexNext(text, bytes[..index], byte);
      assert bytes[..index + 1] == bytes[..index] + [byte];
    }
    assert bytes[..] == bytes[..DIGEST_BYTES] && text[..2 * DIGEST_BYTES] == text;
    return Success(bytes[..]);
  }

  lemma {:induction false} HexNothing()
    ensures Hex([]) == []
  {
  }

  lemma {:induction false} Nibbles(high: Byte, low: Byte)
    requires high < 16 && low < 16
    ensures (16 * high + low) / 16 == high && (16 * high + low) % 16 == low
  {
  }

  lemma {:induction false} HexNext(text: Text, bytes: Text, b: Byte)
    requires 2 * |bytes| + 1 < |text| && Hex(bytes) == text[..2 * |bytes|]
    requires Digit(b / 16) == text[2 * |bytes|] && Digit(b % 16) == text[2 * |bytes| + 1]
    ensures Hex(bytes + [b]) == text[..2 * |bytes| + 2]
  {
    HexAppend(bytes, b);
    assert text[..2 * |bytes| + 2] == text[..2 * |bytes|] + [text[2 * |bytes|], text[2 * |bytes| + 1]];
  }

  lemma {:induction false} ByDigits(text: Text, index: nat)
    requires index < |text| && !IsHexDigit(text[index])
    ensures forall d: Digest :: Hex(d) != text
  {
    forall d: Digest ensures Hex(d) != text { HexDigits(d); }
  }
}
