/** Standard base64 and the signature's wire form: exactly one string stands for each byte string (sections 3.5 and
    4 of RFC 4648). */
module Base64 {
  import opened Wrappers

  const PAD: char := '='

  // ---------- the alphabet ----------

  type Six = i: nat | i < 64

  function Symbol(i: Six): char {
    if i < 26 then 'A' + i as char
    else if i < 52 then 'a' + (i - 26) as char
    else if i < 62 then '0' + (i - 52) as char
    else if i == 62 then '+' else '/'
  }

  function Index(c: char): Option<Six> {
    if 'A' <= c <= 'Z' then Some((c - 'A') as nat)
    else if 'a' <= c <= 'z' then Some((c - 'a') as nat + 26)
    else if '0' <= c <= '9' then Some((c - '0') as nat + 52)
    else if c == '+' then Some(62) else if c == '/' then Some(63) else None
  }

  lemma SymbolsAreIndexed(i: Six)
    ensures Index(Symbol(i)) == Some(i) && Symbol(i) != PAD
  {
  }

  // ---------- the bits of a quantum: three bytes, or four groups of six ----------

  function SixA(x: Byte): Six { x / 4 }
  function SixB(x: Byte, y: Byte): Six { x % 4 * 16 + y / 16 }
  function SixC(y: Byte, z: Byte): Six { y % 16 * 4 + z / 64 }
  function SixD(z: Byte): Six { z % 64 }

  function ByteA(i: Six, j: Six): Byte { i * 4 + j / 16 }
  function ByteB(j: Six, k: Six): Byte { j % 16 * 16 + k / 4 }
  function ByteC(k: Six, l: Six): Byte { k % 4 * 64 + l }

  lemma Regrouped(x: Byte, y: Byte, z: Byte)
    ensures ByteA(SixA(x), SixB(x, y)) == x
    ensures ByteB(SixB(x, y), SixC(y, z)) == y
    ensures ByteC(SixC(y, z), SixD(z)) == z
  {
  }

  // ---------- encoding and decoding ----------

  function Quantum(i: Six, j: Six, k: Six, l: Six): string {
    [Symbol(i), Symbol(j), Symbol(k), Symbol(l)]
  }

  function Encode(b: seq<Byte>): string {
    if |b| == 0 then ""
    else if |b| == 1 then [Symbol(SixA(b[0])), Symbol(SixB(b[0], 0)), PAD, PAD]
    else if |b| == 2 then [Symbol(SixA(b[0])), Symbol(SixB(b[0], b[1])), Symbol(SixC(b[1], 0)), PAD]
    else Quantum(SixA(b[0]), SixB(b[0], b[1]), SixC(b[1], b[2]), SixD(b[2])) + Encode(b[3..])
  }

  /** A decoder that insists on the alphabet and on padding, but drops the unused bits of a padded quantum. */
  function Decode(s: string): Option<seq<Byte>> {
    if s == "" then Some([])
    else if |s| < 4 then None
    else
      var i, j := Index(s[0]), Index(s[1]);
      if i.None? || j.None? then None
      else if s[2] == PAD && s[3] == PAD then if |s| == 4 then Some([ByteA(i.value, j.value)]) else None
      else
        var k := Index(s[2]);
        if k.None? then None
        else if s[3] == PAD then if |s| == 4 then Some([ByteA(i.value, j.value), ByteB(j.value, k.value)]) else None
        else
          var l := Index(s[3]);
          var rest := Decode(s[4..]);
          if l.None? || rest.None? then None
          else Some([ByteA(i.value, j.value), ByteB(j.value, k.value), ByteC(k.value, l.value)] + rest.value)
  }

  lemma DecodeQuantum(i: Six, j: Six, k: Six, l: Six, s: string)
    ensures Decode(Quantum(i, j, k, l) + s) ==
            if Decode(s).Some? then Some([ByteA(i, j), ByteB(j, k), ByteC(k, l)] + Decode(s).value) else None
  {
    SymbolsAreIndexed(i);
    SymbolsAreIndexed(j);
    SymbolsAreIndexed(k);
    SymbolsAreIndexed(l);
    var q := Quantum(i, j, k, l) + s;
    assert q[0] == Symbol(i) && q[1] == Symbol(j) && q[2] == Symbol(k) && q[3] == Symbol(l) && q[4..] == s;
  }

  lemma DecodePadded(i: Six, j: Six)
    ensures Decode([Symbol(i), Symbol(j), PAD, PAD]) == Some([ByteA(i, j)])
  {
    SymbolsAreIndexed(i);
    SymbolsAreIndexed(j);
  }

  lemma DecodeOne(x: Byte)
    ensures Decode([Symbol(SixA(x)), Symbol(SixB(x, 0)), PAD, PAD]) == Some([x])
  {
    DecodePadded(SixA(x), SixB(x, 0));
    Regrouped(x, 0, 0);
  }

  lemma DecodeTwo(x: Byte, y: Byte)
    ensures Decode([Symbol(SixA(x)), Symbol(SixB(x, y)), Symbol(SixC(y, 0)), PAD]) == Some([x, y])
  {
    SymbolsAreIndexed(SixA(x));
    SymbolsAreIndexed(SixB(x, y));
    SymbolsAreIndexed(SixC(y, 0));
    Regrouped(x, y, 0);
  }

  lemma {:induction false} DecodeShort(b: seq<Byte>)
    requires 1 <= |b| <= 2
    ensures Decode(Encode(b)) == Some(b)
  {
    if |b| == 1 {
      DecodeOne(b[0]);
      assert Encode(b) == [Symbol(SixA(b[0])), Symbol(SixB(b[0], 0)), PAD, PAD] && b == [b[0]];
    } else {
      DecodeTwo(b[0], b[1]);
      assert Encode(b) == [Symbol(SixA(b[0])), Symbol(SixB(b[0], b[1])), Symbol(SixC(b[1], 0)), PAD] &&
             b == [b[0], b[1]];
    }
  }

  lemma {:induction false} DecodeLong(b: seq<Byte>)
    requires |b| >= 3 && Decode(Encode(b[3..])) == Some(b[3..])
    ensures Decode(Encode(b)) == Some(b)
  {
    DecodeQuantum(SixA(b[0]), SixB(b[0], b[1]), SixC(b[1], b[2]), SixD(b[2]), Encode(b[3..]));
    Regrouped(b[0], b[1], b[2]);
    assert Decode(Encode(b)) == Some([b[0], b[1], b[2]] + b[3..]);
    assert b == [b[0], b[1], b[2]] + b[3..];
  }

  lemma {:induction false} DecodeEncoded(b: seq<Byte>)
    ensures Decode(Encode(b)) == Some(b)
  {
    if 1 <= |b| <= 2 {
      DecodeShort(b);
    } else if |b| >= 3 {
      DecodeEncoded(b[3..]);
      DecodeLong(b);
    }
  }

  lemma {:induction false} EncodedLength(b: seq<Byte>)
    ensures |Encode(b)| == (|b| + 2) / 3 * 4
  {
    if |b| >= 3 {
      EncodedLength(b[3..]);
      assert |Encode(b)| == 4 + |Encode(b[3..])|;
      assert (|b| + 2) / 3 == (|b[3..]| + 2) / 3 + 1;
    } else {
      assert (|b| + 2) / 3 == if |b| == 0 then 0 else 1;
    }
  }

  // ---------- strict decoding ----------

  datatype DecodeError = NotBase64 | NotCanonical | WrongLength | Bundled | NoPrefix

  function DecodeStandard(value: string, expected: nat): Result<seq<Byte>, DecodeError> {
    var decoded := Decode(value);
    if decoded.None? then Err(NotBase64)
    else if Encode(decoded.value) != value then Err(NotCanonical)
    else if |decoded.value| != expected then Err(WrongLength)
    else Ok(decoded.value)
  }

  /** Strict decoding accepts exactly one string for every byte string of the required length, and no other string. */
  lemma {:induction false} StrictIffEncoding(value: string, expected: nat, b: seq<Byte>)
    ensures DecodeStandard(value, expected) == Ok(b) <==> value == Encode(b) && |b| == expected
  {
    DecodeEncoded(b);
  }

  // ---------- signatures ----------

  const PREFIX: string := "ed25519:"
  const BUNDLED: string := "bundled"
  const SIGNATURE_BYTES: nat := 64

  function WireSignature(signature: seq<Byte>): string {
    PREFIX + Encode(signature)
  }

  function DecodeSignature(signature: string): Result<seq<Byte>, DecodeError> {
    if signature == BUNDLED then Err(Bundled)
    else if !(PREFIX <= signature) then Err(NoPrefix)
    else DecodeStandard(signature[|PREFIX|..], SIGNATURE_BYTES)
  }

  lemma WireMeans(s: string, e: string)
    ensures PREFIX + e == s <==> PREFIX <= s && s[|PREFIX|..] == e
    ensures PREFIX <= s ==> s != BUNDLED
  {
    assert PREFIX <= s ==> s == PREFIX + s[|PREFIX|..] && s[0] == PREFIX[0];
    assert (PREFIX + e)[|PREFIX|..] == e;
  }

  /** Decoding a signature and writing it are mutually inverse between the 64-byte signatures and the accepted
      strings. */
  lemma {:induction false} SignatureBijection(s: string, b: seq<Byte>)
    ensures DecodeSignature(s) == Ok(b) <==> s == WireSignature(b) && |b| == SIGNATURE_BYTES
  {
    WireMeans(s, Encode(b));
    if PREFIX <= s {
      StrictIffEncoding(s[|PREFIX|..], SIGNATURE_BYTES, b);
    }
  }

  lemma WireLength(b: seq<Byte>)
    requires |b| == SIGNATURE_BYTES
    ensures |WireSignature(b)| == 96
  {
    EncodedLength(b);
  }

  /** Every accepted signature has 96 characters and is written back as it was. */
  lemma {:induction false} AcceptedSignature(s: string)
    requires DecodeSignature(s).Ok?
    ensures WireSignature(DecodeSignature(s).value) == s && |s| == 96
  {
    SignatureBijection(s, DecodeSignature(s).value);
    WireLength(DecodeSignature(s).value);
  }

  /** Two strings never stand for one signature, nor two signatures for one string. */
  lemma {:induction false} WireSignatureInjective(b: seq<Byte>, c: seq<Byte>)
    requires WireSignature(b) == WireSignature(c)
    ensures b == c
  {
    assert WireSignature(b)[|PREFIX|..] == Encode(b) && WireSignature(c)[|PREFIX|..] == Encode(c);
    DecodeEncoded(b);
    DecodeEncoded(c);
  }
}
