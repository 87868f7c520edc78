/** Standard base64 read off the bits: each symbol is six bits of the bytes, looked up in the alphabet (section 4 of
    RFC 4648), with the examples of section 10. */
module Base64Rules {
  import opened Wrappers
  import opened Base64

  /** The alphabet, eight characters at a time. */
  const ROWS: seq<string> :=
    ["ABCDEFGH", "IJKLMNOP", "QRSTUVWX", "YZabcdef", "ghijklmn", "opqrstuv", "wxyz0123", "456789+/"]

  /** The row has the symbols from `first` on. */
  predicate Spells(row: string, first: nat)
    requires first + |row| <= 64
  {
    forall k | 0 <= k < |row| :: row[k] == Symbol(first + k)
  }

  lemma FirstRows()
    ensures Spells("ABCDEFGH", 0) && Spells("IJKLMNOP", 8)
  {
  }

  lemma SecondRows()
    ensures Spells("QRSTUVWX", 16) && Spells("YZabcdef", 24)
  {
  }

  lemma ThirdRows()
    ensures Spells("ghijklmn", 32) && Spells("opqrstuv", 40)
  {
  }

  lemma FourthRows()
    ensures Spells("wxyz0123", 48) && Spells("456789+/", 56)
  {
  }

  /** The symbol of a number is the character at its place in the alphabet. */
  lemma {:induction false} SymbolsAreTheAlphabet(i: Six)
    ensures |ROWS| == 8 && |ROWS[i / 8]| == 8 && Symbol(i) == ROWS[i / 8][i % 8]
  {
    FirstRows();
    SecondRows();
    ThirdRows();
    FourthRows();
    assert i == i / 8 * 8 + i % 8;
  }

  // ---------- groups of three bytes ----------

  function ByteAt(b: Bytes, i: nat): Byte {
    if i < |b| then b[i] else 0
  }

  /** Three bytes as one number, the first one highest; after the last byte there are zeros. */
  function Group(b: Bytes, g: nat): nat {
    ByteAt(b, 3 * g) * 65536 + ByteAt(b, 3 * g + 1) * 256 + ByteAt(b, 3 * g + 2)
  }

  /** The digits of such a number to the base 64, the highest first. */
  predicate Digits(v: nat, p: Six, q: Six, r: Six, t: Six) {
    v == p * 262144 + q * 4096 + r * 64 + t
  }

  lemma SixesMakeGroup(x: Byte, y: Byte, z: Byte)
    ensures Digits(x * 65536 + y * 256 + z, SixA(x), SixB(x, y), SixC(y, z), SixD(z))
  {
  }

  predicate SpelledBy(quad: string, n: int, p: Six, q: Six, r: Six, t: Six)
    requires |quad| == 4
  {
    && quad[0] == Symbol(p) && quad[1] == Symbol(q)
    && quad[2] == (if n > 1 then Symbol(r) else PAD) && quad[3] == (if n > 2 then Symbol(t) else PAD)
  }

  /** Four characters for a group with `n` bytes: its digits, looked up in the alphabet, as far as it has bytes, and
      then padding. */
  ghost predicate Spelled(quad: string, v: nat, n: int) {
    |quad| == 4 && exists p: Six, q: Six, r: Six, t: Six :: Digits(v, p, q, r, t) && SpelledBy(quad, n, p, q, r, t)
  }

  lemma FirstCharacters(b: Bytes)
    requires b != []
    ensures |Encode(b)| >= 4
    ensures SpelledBy(Encode(b)[..4], |b|, SixA(b[0]), SixB(b[0], ByteAt(b, 1)), SixC(ByteAt(b, 1), ByteAt(b, 2)),
                      SixD(ByteAt(b, 2)))
  {
  }

  lemma FirstGroupSpelled(b: Bytes)
    requires b != []
    ensures |Encode(b)| >= 4 && Spelled(Encode(b)[..4], Group(b, 0), |b|)
  {
    FirstCharacters(b);
    SixesMakeGroup(ByteAt(b, 0), ByteAt(b, 1), ByteAt(b, 2));
    assert Group(b, 0) == ByteAt(b, 0) * 65536 + ByteAt(b, 1) * 256 + ByteAt(b, 2);
  }

  lemma LaterGroup(b: Bytes, g: nat)
    requires 0 < g && 3 * g < |b|
    ensures Group(b, g) == Group(b[3..], g - 1)
  {
  }

  lemma LaterCharacters(b: Bytes, k: nat)
    requires |b| > 3 && k + 4 <= |Encode(b[3..])|
    ensures k + 8 <= |Encode(b)| && Encode(b)[k + 4..k + 8] == Encode(b[3..])[k..k + 4]
  {
    assert |Quantum(SixA(b[0]), SixB(b[0], b[1]), SixC(b[1], b[2]), SixD(b[2]))| == 4;
  }

  /** Encoding writes each group of three bytes as the four base-64 digits of its number. */
  lemma {:induction false} EncodingSpellsGroups(b: Bytes, g: nat)
    requires 3 * g < |b|
    ensures |Encode(b)| == (|b| + 2) / 3 * 4 && 4 * g + 4 <= |Encode(b)|
    ensures Spelled(Encode(b)[4 * g..4 * g + 4], Group(b, g), |b| - 3 * g)
  {
    EncodedLength(b);
    if g == 0 {
      FirstGroupSpelled(b);
    } else {
      EncodingSpellsGroups(b[3..], g - 1);
      LaterGroup(b, g);
      LaterCharacters(b, 4 * (g - 1));
    }
  }

  // ---------- examples ----------

  /** The examples of section 10 of RFC 4648, for the bytes of "f", "fo", "foo" and "foobar". */
  lemma KnownEncodings()
    ensures Encode([]) == ""
    ensures Encode([102]) == "Zg=="
    ensures Encode([102, 111]) == "Zm8="
    ensures Encode([102, 111, 111]) == "Zm9v"
    ensures Encode([102, 111, 111, 98, 97, 114]) == "Zm9vYmFy"
  {
    var b: Bytes := [102, 111, 111, 98, 97, 114];
    assert b[3..] == [98, 97, 114];
  }

  /** A signature is written with the prefix of its algorithm. */
  lemma WirePrefix(signature: Bytes)
    ensures WireSignature(signature) == "ed25519:" + Encode(signature)
    ensures DecodeSignature("bundled") == Err(Bundled)
  {
  }
}
