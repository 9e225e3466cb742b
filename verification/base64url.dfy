/** Base64url (section 5 of RFC 4648) as Go's decoder reads it: line breaks are skipped, and the
    bits left over in the last character are not looked at. */
module Base64Url {
  import opened Text

  type Byte = n: int | 0 <= n < 256

  type Bytes = seq<Byte>

  // ----- one character -----

  predicate IsSymbol(c: char) {
    'A' <= c <= 'Z' || 'a' <= c <= 'z' || '0' <= c <= '9' || c == '-' || c == '_'
  }

  function Symbol(v: nat): (c: char)
    requires v < 64
    ensures IsSymbol(c)
  {
    if v < 26 then ('A' as int + v) as char
    else if v < 52 then ('a' as int + (v - 26)) as char
    else if v < 62 then ('0' as int + (v - 52)) as char
    else if v == 62 then '-' else '_'
  }

  function Sextet(c: char): (v: nat)
    requires IsSymbol(c)
    ensures v < 64 && Symbol(v) == c
  {
    if 'A' <= c <= 'Z' then c as int - 'A' as int
    else if 'a' <= c <= 'z' then c as int - 'a' as int + 26
    else if '0' <= c <= '9' then c as int - '0' as int + 52
    else if c == '-' then 62 else 63
  }

  lemma SextetOfSymbol(v: nat)
    requires v < 64
    ensures Sextet(Symbol(v)) == v
  {
  }

  // ----- three bytes are four sextets -----

  function S1(x: Byte): (v: nat) ensures v < 64 { x / 4 }
  function S2(x: Byte, y: Byte): (v: nat) ensures v < 64 { x % 4 * 16 + y / 16 }
  function S3(y: Byte, z: Byte): (v: nat) ensures v < 64 { y % 16 * 4 + z / 64 }
  function S4(z: Byte): (v: nat) ensures v < 64 { z % 64 }

  function B1(a: nat, b: nat): Byte requires a < 64 && b < 64 { a * 4 + b / 16 }
  function B2(b: nat, c: nat): Byte requires b < 64 && c < 64 { b % 16 * 16 + c / 4 }
  function B3(c: nat, d: nat): Byte requires c < 64 && d < 64 { c % 4 * 64 + d }

  lemma BytesBack(x: Byte, y: Byte, z: Byte)
    ensures B1(S1(x), S2(x, y)) == x && B2(S2(x, y), S3(y, z)) == y && B3(S3(y, z), S4(z)) == z
  {
    assert S2(x, y) / 16 == x % 4 && S2(x, y) % 16 == y / 16;
    assert S3(y, z) / 4 == y % 16 && S3(y, z) % 4 == z / 64;
  }

  lemma SextetsBack(a: nat, b: nat, c: nat, d: nat)
    requires a < 64 && b < 64 && c < 64 && d < 64
    ensures S1(B1(a, b)) == a && S2(B1(a, b), B2(b, c)) == b && S3(B2(b, c), B3(c, d)) == c && S4(B3(c, d)) == d
    ensures S2(B1(a, b), 0) == b - b % 16 && S3(B2(b, c), 0) == c - c % 4
  {
    assert B1(a, b) / 4 == a && B1(a, b) % 4 == b / 16;
    assert B2(b, c) / 16 == b % 16 && B2(b, c) % 16 == c / 4;
    assert B3(c, d) / 64 == c % 4 && B3(c, d) % 64 == d;
  }

  // ----- encoding -----

  function Encode(b: Bytes): string {
    if |b| == 0 then ""
    else if |b| == 1 then [Symbol(S1(b[0])), Symbol(S2(b[0], 0))]
    else if |b| == 2 then [Symbol(S1(b[0])), Symbol(S2(b[0], b[1])), Symbol(S3(b[1], 0))]
    else Quad(b[0], b[1], b[2]) + Encode(b[3..])
  }

  function Quad(x: Byte, y: Byte, z: Byte): string {
    [Symbol(S1(x)), Symbol(S2(x, y)), Symbol(S3(y, z)), Symbol(S4(z))]
  }

  /** The alphabet of section 5 of RFC 4648: A to Z, a to z, 0 to 9, then two more. */
  lemma SymbolsAreListed()
    ensures Symbol(0) == 'A' && Symbol(26) == 'a' && Symbol(52) == '0' && Symbol(62) == '-' && Symbol(63) == '_'
    ensures forall v: nat :: v + 1 < 62 && v + 1 != 26 && v + 1 != 52 ==> Symbol(v + 1) as int == Symbol(v) as int + 1
  {
  }

  /** Three bytes and their four symbols are the same number, most significant first. */
  lemma QuadIsBigEndian(x: Byte, y: Byte, z: Byte)
    ensures exists a: nat, b: nat, c: nat, d: nat :: a < 64 && b < 64 && c < 64 && d < 64
              && Quad(x, y, z) == [Symbol(a), Symbol(b), Symbol(c), Symbol(d)]
              && a * 0x40000 + b * 0x1000 + c * 0x40 + d == x * 0x10000 + y * 0x100 + z
  {
    assert x == x / 4 * 4 + x % 4 && y == y / 16 * 16 + y % 16 && z == z / 64 * 64 + z % 64;
    assert Quad(x, y, z) == [Symbol(S1(x)), Symbol(S2(x, y)), Symbol(S3(y, z)), Symbol(S4(z))];
  }

  /** Three bytes come first. */
  lemma EncodeThree(x: Byte, y: Byte, z: Byte, rest: Bytes)
    ensures Encode([x, y, z] + rest) == Quad(x, y, z) + Encode(rest)
  {
    assert ([x, y, z] + rest)[3..] == rest;
  }

  /** One or two bytes at the end are filled with zeros, and the symbols of those are left out. */
  lemma EncodeOne(x: Byte)
    ensures Encode([x]) + Quad(x, 0, 0)[2..] == Quad(x, 0, 0)
  {
    assert Encode([x]) == [Symbol(S1(x)), Symbol(S2(x, 0))];
  }

  lemma EncodeTwo(x: Byte, y: Byte)
    ensures Encode([x, y]) + [Quad(x, y, 0)[3]] == Quad(x, y, 0)
  {
    assert Encode([x, y]) == [Symbol(S1(x)), Symbol(S2(x, y)), Symbol(S3(y, 0))];
  }

  // ----- decoding -----

  predicate AllSymbols(s: string) {
    forall c :: c in s ==> IsSymbol(c)
  }

  function StripBreaks(s: string): string {
    if |s| == 0 then ""
    else if s[0] == '\n' || s[0] == '\r' then StripBreaks(s[1..])
    else [s[0]] + StripBreaks(s[1..])
  }

  /** The bytes of a text of symbols; the unused low bits of the last one are dropped. */
  function Bits(s: string): Option<Bytes>
    requires AllSymbols(s)
  {
    if |s| == 0 then Some([])
    else if |s| == 1 then None
    else if |s| == 2 then Some([B1(Sextet(s[0]), Sextet(s[1]))])
    else if |s| == 3 then Some([B1(Sextet(s[0]), Sextet(s[1])), B2(Sextet(s[1]), Sextet(s[2]))])
    else
      var rest := Bits(s[4..]);
      if rest == None then None else Some(Triple(s[0], s[1], s[2], s[3]) + rest.value)
  }

  function Triple(a: char, b: char, c: char, d: char): Bytes
    requires IsSymbol(a) && IsSymbol(b) && IsSymbol(c) && IsSymbol(d)
  {
    [B1(Sextet(a), Sextet(b)), B2(Sextet(b), Sextet(c)), B3(Sextet(c), Sextet(d))]
  }

  /** `base64.RawURLEncoding.DecodeString`. */
  function RawDecode(text: string): Option<Bytes> {
    var s := StripBreaks(text);
    if AllSymbols(s) then Bits(s) else None
  }

  // ----- round trip -----

  lemma QuadTriple(x: Byte, y: Byte, z: Byte)
    ensures var q := Quad(x, y, z);
            Triple(q[0], q[1], q[2], q[3]) == [x, y, z]
  {
    SextetOfSymbol(S1(x));
    SextetOfSymbol(S2(x, y));
    SextetOfSymbol(S3(y, z));
    SextetOfSymbol(S4(z));
    BytesBack(x, y, z);
  }

  lemma {:induction false} EncodeSymbols(b: Bytes)
    ensures AllSymbols(Encode(b))
    ensures |Encode(b)| == 0 <==> |b| == 0
  {
    if |b| > 2 {
      EncodeSymbols(b[3..]);
    }
  }

  lemma Listed(b: Bytes)
    ensures |b| == 1 ==> b == [b[0]]
    ensures |b| == 2 ==> b == [b[0], b[1]]
    ensures |b| > 2 ==> b == [b[0], b[1], b[2]] + b[3..]
  {
  }

  lemma {:induction false} BitsOfEncode(b: Bytes)
    ensures AllSymbols(Encode(b)) && Bits(Encode(b)) == Some(b)
  {
    EncodeSymbols(b);
    if |b| == 1 {
      QuadTriple(b[0], 0, 0);
      Listed(b);
    } else if |b| == 2 {
      QuadTriple(b[0], b[1], 0);
      Listed(b);
    } else if |b| > 2 {
      QuadTriple(b[0], b[1], b[2]);
      BitsOfEncode(b[3..]);
      assert Encode(b)[4..] == Encode(b[3..]);
      Listed(b);
    }
  }

  lemma {:induction false} NothingToStrip(s: string)
    requires '\n' !in s && '\r' !in s
    ensures StripBreaks(s) == s
  {
    if |s| > 0 {
      NothingToStrip(s[1..]);
      assert s == [s[0]] + s[1..];
    }
  }

  lemma {:induction false} StripLeavesNone(s: string)
    ensures '\n' !in StripBreaks(s) && '\r' !in StripBreaks(s)
    ensures |StripBreaks(s)| <= |s| && (|StripBreaks(s)| == |s| ==> StripBreaks(s) == s)
  {
    if |s| > 0 {
      StripLeavesNone(s[1..]);
      assert s == [s[0]] + s[1..];
    }
  }

  /** Decoding undoes encoding, for every byte string. */
  lemma DecodeEncode(b: Bytes)
    ensures RawDecode(Encode(b)) == Some(b)
  {
    BitsOfEncode(b);
    NothingToStrip(Encode(b));
  }

  // ----- canonical texts -----

  /** No bits are left over. */
  predicate TrailingBitsZero(s: string)
    requires AllSymbols(s)
  {
    if |s| == 2 then Sextet(s[1]) % 16 == 0
    else if |s| == 3 then Sextet(s[2]) % 4 == 0
    else |s| > 3 ==> TrailingBitsZero(s[4..])
  }

  lemma TripleQuad(a: char, b: char, c: char, d: char)
    requires IsSymbol(a) && IsSymbol(b) && IsSymbol(c) && IsSymbol(d)
    ensures var t := Triple(a, b, c, d); Quad(t[0], t[1], t[2]) == [a, b, c, d]
  {
    SextetsBack(Sextet(a), Sextet(b), Sextet(c), Sextet(d));
  }

  lemma SymbolsDiffer(v: nat, w: nat)
    requires v < 64 && w < 64
    ensures Symbol(v) == Symbol(w) <==> v == w
  {
    SextetOfSymbol(v);
    SextetOfSymbol(w);
  }

  /** Among texts of symbols, the encodings are those whose left-over bits are zero. */
  lemma {:induction false} ReencodeExactly(s: string, b: Bytes)
    requires AllSymbols(s) && Bits(s) == Some(b)
    ensures Encode(b) == s <==> TrailingBitsZero(s)
  {
    if |s| == 2 {
      ReencodeTwo(s);
    } else if |s| == 3 {
      ReencodeThree(s);
    } else if |s| > 3 {
      var rest := Bits(s[4..]).value;
      TripleQuad(s[0], s[1], s[2], s[3]);
      ReencodeExactly(s[4..], rest);
      var t := Triple(s[0], s[1], s[2], s[3]);
      assert b == t + rest;
      assert b[3..] == rest && b[0] == t[0] && b[1] == t[1] && b[2] == t[2];
      FirstFour(s);
      SameFront(Quad(b[0], b[1], b[2]), Encode(rest), s);
    }
  }

  lemma FirstFour(s: string)
    requires |s| > 3
    ensures s[..4] == [s[0], s[1], s[2], s[3]]
  {
  }

  lemma SameFront(front: string, rest: string, s: string)
    requires |front| <= |s| && front == s[..|front|]
    ensures front + rest == s <==> rest == s[|front|..]
  {
    assert s == s[..|front|] + s[|front|..];
    assert (front + rest)[|front|..] == rest;
  }

  lemma SpellOut(s: string)
    ensures |s| == 2 ==> s == [s[0], s[1]]
    ensures |s| == 3 ==> s == [s[0], s[1], s[2]]
  {
  }

  lemma LastOfTwo(a: char, b: char, c: char)
    ensures [a, b] == [a, c] <==> b == c
  {
    assert [a, b][1] == b && [a, c][1] == c;
  }

  lemma LastOfThree(a: char, b: char, c: char, d: char)
    ensures [a, b, c] == [a, b, d] <==> c == d
  {
    assert [a, b, c][2] == c && [a, b, d][2] == d;
  }

  lemma ReencodeTwo(s: string)
    requires AllSymbols(s) && |s| == 2
    ensures Encode([B1(Sextet(s[0]), Sextet(s[1]))]) == s <==> Sextet(s[1]) % 16 == 0
  {
    var x, y := Sextet(s[0]), Sextet(s[1]);
    SextetsBack(x, y, 0, 0);
    SymbolsDiffer(y - y % 16, y);
    SpellOut(s);
    LastOfTwo(s[0], Symbol(y - y % 16), s[1]);
  }

  lemma ReencodeThree(s: string)
    requires AllSymbols(s) && |s| == 3
    ensures Encode([B1(Sextet(s[0]), Sextet(s[1])), B2(Sextet(s[1]), Sextet(s[2]))]) == s <==> Sextet(s[2]) % 4 == 0
  {
    var x, y, z := Sextet(s[0]), Sextet(s[1]), Sextet(s[2]);
    SextetsBack(x, y, z, 0);
    SymbolsDiffer(z - z % 4, z);
    SpellOut(s);
    LastOfThree(s[0], s[1], Symbol(z - z % 4), s[2]);
  }

  datatype CodecError = NotCanonical

  /** `canonicalB64URLDecode`. */
  function CanonicalDecode(text: string): Result<Bytes, CodecError> {
    if text == "" then Err(NotCanonical)
    else if exists c :: c in text && (c <= ' ' || c == '=') then Err(NotCanonical)
    else if !AllSymbols(text) then Err(NotCanonical)
    else
      var raw := RawDecode(text);
      if raw == None || Encode(raw.value) != text then Err(NotCanonical) else Ok(raw.value)
  }

  /** Accepted are exactly the encodings of non-empty byte strings, each with its own bytes. */
  lemma CanonicalIsExact(text: string, b: Bytes)
    ensures CanonicalDecode(text) == Ok(b) <==> |b| > 0 && text == Encode(b)
  {
    EncodeSymbols(b);
    DecodeEncode(b);
    if |b| > 0 && text == Encode(b) {
      assert forall c :: c in text ==> IsSymbol(c);
    }
  }

  /** Two accepted texts with the same bytes are the same text. */
  lemma CanonicalIsUnique(s: string, t: string)
    requires CanonicalDecode(s).Ok? && CanonicalDecode(s) == CanonicalDecode(t)
    ensures s == t
  {
    CanonicalIsExact(s, CanonicalDecode(s).value);
    CanonicalIsExact(t, CanonicalDecode(t).value);
  }

  /** The plain decoder is not like that: what it accepts is an encoding exactly when it holds no
      line break and its left-over bits are zero. */
  lemma RawAcceptsMore(text: string, b: Bytes)
    requires RawDecode(text) == Some(b)
    ensures Encode(b) == text <==> '\n' !in text && '\r' !in text && TrailingBitsZero(StripBreaks(text))
  {
    var s := StripBreaks(text);
    StripLeavesNone(text);
    ReencodeExactly(s, b);
    EncodeSymbols(b);
    if '\n' !in text && '\r' !in text {
      NothingToStrip(text);
    }
  }

  lemma {:induction false} StripAppend(a: string, b: string)
    ensures StripBreaks(a + b) == StripBreaks(a) + StripBreaks(b)
  {
    if |a| == 0 {
      assert a + b == b;
    } else {
      assert (a + b)[1..] == a[1..] + b;
      StripAppend(a[1..], b);
    }
  }

  /** A line break anywhere makes no difference to the plain decoder. */
  lemma RawIgnoresBreaks(a: string, b: string)
    ensures RawDecode(a + "\n" + b) == RawDecode(a + b) && RawDecode(a + "\r" + b) == RawDecode(a + b)
  {
    StripAppend(a, b);
    StripAppend(a + "\n", b);
    StripAppend(a, "\n");
    StripAppend(a + "\r", b);
    StripAppend(a, "\r");
    assert StripBreaks("\n") == "" && StripBreaks("\r") == "";
    assert StripBreaks(a) + "" == StripBreaks(a);
  }

  lemma {:induction false} BitsExactly(s: string)
    requires AllSymbols(s)
    ensures Bits(s).Some? <==> |s| % 4 != 1
  {
    if |s| > 3 {
      BitsExactly(s[4..]);
      ModFour(|s| - 4);
    }
  }

  /** What it accepts besides: symbols, as many as bytes can give. */
  lemma RawDecodesExactly(text: string)
    ensures RawDecode(text).Some? <==> AllSymbols(StripBreaks(text)) && |StripBreaks(text)| % 4 != 1
  {
    if AllSymbols(StripBreaks(text)) {
      BitsExactly(StripBreaks(text));
    }
  }

  // ----- with padding -----

  function Padding(length: nat): string {
    if length % 4 == 2 then "==" else if length % 4 == 3 then "=" else ""
  }

  function EncodePadded(b: Bytes): string {
    Encode(b) + Padding(|Encode(b)|)
  }

  function PaddedBits(s: string): Option<Bytes> {
    if |s| == 0 then Some([])
    else if |s| < 4 then None
    else if s[3] == '=' then
      if |s| > 4 then None
      else
        var body := if s[2] == '=' then s[..2] else s[..3];
        if AllSymbols(body) then Bits(body) else None
    else if AllSymbols(s[..4]) then
      var rest := PaddedBits(s[4..]);
      if rest == None then None else Some(Triple(s[..4][0], s[..4][1], s[..4][2], s[..4][3]) + rest.value)
    else None
  }

  /** `base64.URLEncoding.DecodeString`. */
  function PaddedDecode(text: string): Option<Bytes> {
    PaddedBits(StripBreaks(text))
  }

  lemma ModFour(n: nat)
    ensures (n + 4) % 4 == n % 4
  {
  }

  /** Padding a text of symbols to a multiple of four makes the padded decoder read it as the raw
      one does. */
  lemma {:induction false} PaddingIsHarmless(s: string)
    requires AllSymbols(s)
    ensures PaddedBits(s + Padding(|s|)) == Bits(s)
  {
    var padded := s + Padding(|s|);
    if |s| == 2 || |s| == 3 {
      assert padded[..|s|] == s;
    } else if |s| > 3 {
      PaddingIsHarmless(s[4..]);
      ModFour(|s| - 4);
      assert padded[..4] == s[..4];
      assert padded[4..] == s[4..] + Padding(|s[4..]|);
    }
  }
}
