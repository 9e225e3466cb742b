/** Notification page cursors: a position, bound to the filters it was made for and signed. */
module Cursor {
  import opened Text
  import opened Base64Url

  // ----- what is taken as given -----

  type Payload = map<string, string>

  /** JSON text of a map of strings, HMAC-SHA256 and SHA-256. */
  datatype Suite = Suite(
    marshal: Payload -> Bytes,
    unmarshal: Bytes -> Option<Payload>,
    mac: (string, string) -> Bytes,
    sha256: string -> Bytes)

  ghost predicate Lawful(suite: Suite) {
    && (forall p :: |suite.marshal(p)| > 0 && suite.unmarshal(suite.marshal(p)) == Some(p))
    && (forall secret, text :: |suite.mac(secret, text)| == 32)
  }

  // ----- hexadecimal -----

  function HexDigit(v: nat): char
    requires v < 16
  {
    if v < 10 then ('0' as int + v) as char else ('a' as int + (v - 10)) as char
  }

  function HexByte(b: Byte): (text: string)
    ensures |text| == 2
  {
    [HexDigit(b / 16), HexDigit(b % 16)]
  }

  function Hex(value: Bytes): (text: string)
    ensures |text| == 2 * |value|
  {
    if |value| == 0 then "" else Hex(value[..|value| - 1]) + HexByte(value[|value| - 1])
  }

  /** Fills a buffer two characters at a time. */
  method HexEncode(value: Bytes) returns (text: string)
    ensures text == Hex(value)
  {
    var out := new char[2 * |value|];
    for i := 0 to |value|
      invariant out[..2 * i] == Hex(value[..i])
    {
      assert value[..i + 1][..i] == value[..i];
      out[2 * i] := HexDigit(value[i] / 16);
      out[2 * i + 1] := HexDigit(value[i] % 16);
      assert out[..2 * (i + 1)] == out[..2 * i] + [out[2 * i], out[2 * i + 1]];
    }
    assert value[..|value|] == value && out[..] == out[..2 * |value|];
    return out[..];
  }

  lemma HexDigitInjective(v: nat, w: nat)
    requires v < 16 && w < 16 && HexDigit(v) == HexDigit(w)
    ensures v == w
  {
  }

  lemma HexByteInjective(x: Byte, y: Byte)
    requires HexByte(x) == HexByte(y)
    ensures x == y
  {
    assert HexByte(x)[0] == HexByte(y)[0] && HexByte(x)[1] == HexByte(y)[1];
    HexDigitInjective(x / 16, y / 16);
    HexDigitInjective(x % 16, y % 16);
  }

  lemma SameEnds(a: string, b: string, x: string, y: string)
    requires a + x == b + y && |x| == |y|
    ensures a == b && x == y
  {
    assert |a| == |b|;
    assert a == (a + x)[..|a|] && b == (b + y)[..|b|];
    assert x == (a + x)[|a|..] && y == (b + y)[|b|..];
  }

  /** Different bytes have different hexadecimal texts. */
  lemma {:induction false} HexInjective(a: Bytes, b: Bytes)
    requires Hex(a) == Hex(b)
    ensures a == b
  {
    if |a| > 0 {
      var x, y := a[|a| - 1], b[|b| - 1];
      SameEnds(Hex(a[..|a| - 1]), Hex(b[..|b| - 1]), HexByte(x), HexByte(y));
      HexByteInjective(x, y);
      HexInjective(a[..|a| - 1], b[..|b| - 1]);
      assert a == a[..|a| - 1] + [x] && b == b[..|b| - 1] + [y];
    }
  }

  const HEX_DIGITS := "0123456789abcdef"

  /** Each byte is the two digits of its upper and its lower half. */
  lemma {:induction false} HexIsPositional(value: Bytes, i: nat)
    requires i < |value|
    ensures |Hex(value)| == 2 * |value|
    ensures Hex(value)[2 * i] == HEX_DIGITS[value[i] / 16] && Hex(value)[2 * i + 1] == HEX_DIGITS[value[i] % 16]
  {
    if i < |value| - 1 {
      HexIsPositional(value[..|value| - 1], i);
    } else {
      HexDigitIsListed(value[i] / 16);
      HexDigitIsListed(value[i] % 16);
    }
  }

  lemma HexDigitIsListed(v: nat)
    requires v < 16
    ensures HexDigit(v) == HEX_DIGITS[v]
  {
  }

  // ----- base64 with the padding taken off and put back -----

  function TrimEquals(s: string): string {
    if |s| > 0 && s[|s| - 1] == '=' then TrimEquals(s[..|s| - 1]) else s
  }

  function B64(value: Bytes): string {
    TrimEquals(EncodePadded(value))
  }

  function DecodeB64(text: string): Option<Bytes> {
    PaddedDecode(text + Padding(|text|))
  }

  lemma TrimPadding(s: string, n: nat)
    requires AllSymbols(s)
    ensures TrimEquals(s + Padding(n)) == s
  {
    assert |s| > 0 ==> s[|s| - 1] in s;
    var one, two := s + "=", s + "==";
    assert s + "" == s;
    assert one[..|one| - 1] == s && two[..|two| - 1] == one;
    assert TrimEquals(one) == s;
    assert TrimEquals(two) == TrimEquals(one);
  }

  lemma PaddingIsEquals(n: nat)
    ensures forall c :: c in Padding(n) ==> c == '='
  {
  }

  lemma PaddedHasNoBreaks(text: string, pad: string)
    requires AllSymbols(text) && forall c :: c in pad ==> c == '='
    ensures StripBreaks(text + pad) == text + pad
  {
    NothingToStrip(text + pad);
  }

  /** Re-padding by the length inverts the trimmed encoding, for byte strings of every length. */
  lemma B64RoundTrip(value: Bytes)
    ensures B64(value) == Encode(value) && DecodeB64(B64(value)) == Some(value)
  {
    EncodeSymbols(value);
    TrimPadding(Encode(value), |Encode(value)|);
    PaddingIsEquals(|Encode(value)|);
    PaddedHasNoBreaks(Encode(value), Padding(|Encode(value)|));
    PaddingIsHarmless(Encode(value));
    BitsOfEncode(value);
  }

  // ----- the codec -----

  datatype Filters = Filters(recipient: string, state: string, severity: string, fromDate: string, toDate: string)

  datatype Codec = Codec(secret: string)

  datatype CursorError = InvalidCursor

  const DEFAULT_SECRET := "dev-notification-cursor-secret"

  function NewCodec(secret: string): Codec {
    Codec(if secret == "" then DEFAULT_SECRET else secret)
  }

  function ScopeParts(f: Filters): seq<string> {
    [ToLower(TrimSpace(f.recipient)), f.state, f.severity, f.fromDate, f.toDate]
  }

  function Scope(suite: Suite, f: Filters): string {
    Hex(suite.sha256(Join(ScopeParts(f), '\0')))
  }

  function PayloadOf(suite: Suite, createdAt: string, id: string, f: Filters): Payload {
    map["created_at" := createdAt, "notification_id" := id, "scope" := Scope(suite, f)]
  }

  function EncodedPart(suite: Suite, createdAt: string, id: string, f: Filters): string {
    B64(suite.marshal(PayloadOf(suite, createdAt, id, f)))
  }

  function EncodeCursor(suite: Suite, c: Codec, createdAt: string, id: string, f: Filters): string {
    var encoded := EncodedPart(suite, createdAt, id, f);
    encoded + "." + B64(suite.mac(c.secret, encoded))
  }

  function Get(p: Payload, key: string): string {
    if key in p then p[key] else ""
  }

  function DecodeCursor(suite: Suite, c: Codec, cursor: string, f: Filters): Result<(string, string), CursorError> {
    if '.' !in cursor then Err(InvalidCursor)
    else
      var encoded, signature := cursor[..IndexOf(cursor, '.')], cursor[IndexOf(cursor, '.') + 1..];
      if encoded == "" || signature == "" || DecodeB64(signature) != Some(suite.mac(c.secret, encoded))
      then Err(InvalidCursor)
      else
        var raw := DecodeB64(encoded);
        if raw == None then Err(InvalidCursor)
        else
          var payload := suite.unmarshal(raw.value);
          if payload == None then Err(InvalidCursor) else ReadPosition(suite, payload.value, f)
  }

  function ReadPosition(suite: Suite, p: Payload, f: Filters): Result<(string, string), CursorError> {
    if Get(p, "scope") != Scope(suite, f) then Err(InvalidCursor)
    else if Get(p, "created_at") == "" || Get(p, "notification_id") == "" then Err(InvalidCursor)
    else Ok((Get(p, "created_at"), Get(p, "notification_id")))
  }

  // ----- round trip -----

  lemma CutAtDot(encoded: string, signature: string)
    requires AllSymbols(encoded)
    ensures var cursor := encoded + "." + signature;
            '.' in cursor
            && cursor[..IndexOf(cursor, '.')] == encoded && cursor[IndexOf(cursor, '.') + 1..] == signature
  {
    var cursor := encoded + "." + signature;
    assert cursor[|encoded|] == '.' && cursor[..|encoded|] == encoded;
    IndexOfUnique(cursor, '.', |encoded|);
  }

  lemma ReadsBack(suite: Suite, c: Codec, p: Payload, tag: Bytes, g: Filters)
    requires Lawful(suite) && |tag| == 32
    ensures var encoded := B64(suite.marshal(p));
            DecodeCursor(suite, c, encoded + "." + B64(tag), g)
            == if tag == suite.mac(c.secret, encoded) then ReadPosition(suite, p, g) else Err(InvalidCursor)
  {
    var raw := suite.marshal(p);
    B64RoundTrip(raw);
    B64RoundTrip(tag);
    EncodeSymbols(raw);
    EncodeSymbols(tag);
    CutAtDot(B64(raw), B64(tag));
    assert suite.unmarshal(raw) == Some(p);
  }

  lemma FieldsRead(createdAt: string, id: string, scope: string)
    ensures var p := map["created_at" := createdAt, "notification_id" := id, "scope" := scope];
            Get(p, "created_at") == createdAt && Get(p, "notification_id") == id && Get(p, "scope") == scope
  {
    assert |"created_at"| != |"notification_id"| && |"scope"| != |"created_at"| && |"scope"| != |"notification_id"|;
  }

  /** What a codec configured with one secret makes of a cursor made under another: the position comes
      back exactly when it is not empty, the filters have the same scope and the two secrets, an empty one
      replaced by the default, sign the encoded part alike. */
  lemma CursorRoundTrip(suite: Suite, mine: string, theirs: string, createdAt: string, id: string,
                       f: Filters, g: Filters)
    requires Lawful(suite)
    ensures var my := if mine == "" then DEFAULT_SECRET else mine;
            var their := if theirs == "" then DEFAULT_SECRET else theirs;
            var encoded := EncodedPart(suite, createdAt, id, f);
            DecodeCursor(suite, NewCodec(theirs), EncodeCursor(suite, NewCodec(mine), createdAt, id, f), g)
            == if createdAt != "" && id != "" && Scope(suite, f) == Scope(suite, g)
                  && suite.mac(my, encoded) == suite.mac(their, encoded)
               then Ok((createdAt, id)) else Err(InvalidCursor)
  {
    var p := PayloadOf(suite, createdAt, id, f);
    FieldsRead(createdAt, id, Scope(suite, f));
    ReadsBack(suite, NewCodec(theirs), p, suite.mac(NewCodec(mine).secret, B64(suite.marshal(p))), g);
  }

  /** Recipients that differ only in case and surrounding space have the same scope. */
  lemma SameRecipient(suite: Suite, f: Filters, g: Filters)
    requires ToLower(TrimSpace(f.recipient)) == ToLower(TrimSpace(g.recipient))
    requires f.(recipient := "") == g.(recipient := "")
    ensures Scope(suite, f) == Scope(suite, g)
  {
    assert ScopeParts(f) == ScopeParts(g);
  }

  /** And no others do, when no filter holds a NUL and the hash does not collide on the two texts. */
  lemma ScopeDetermines(suite: Suite, f: Filters, g: Filters)
    requires Free('\0', ScopeParts(f)) && Free('\0', ScopeParts(g))
    requires var a, b := Join(ScopeParts(f), '\0'), Join(ScopeParts(g), '\0');
             suite.sha256(a) == suite.sha256(b) ==> a == b
    requires Scope(suite, f) == Scope(suite, g)
    ensures ToLower(TrimSpace(f.recipient)) == ToLower(TrimSpace(g.recipient))
    ensures f.(recipient := "") == g.(recipient := "")
  {
    HexInjective(suite.sha256(Join(ScopeParts(f), '\0')), suite.sha256(Join(ScopeParts(g), '\0')));
    JoinInjective(ScopeParts(f), ScopeParts(g), '\0');
    var x, y := ScopeParts(f), ScopeParts(g);
    assert x[0] == y[0] && x[1] == y[1] && x[2] == y[2] && x[3] == y[3] && x[4] == y[4];
  }

  // ----- cursors that were not made here -----

  datatype Made = Made(createdAt: string, id: string, filters: Filters)

  /** An ideal signature, for one cursor presented: if its tag fits its encoded part, that part was made
      for one of the cursors given out. */
  ghost predicate NotForged(suite: Suite, c: Codec, history: seq<Made>, cursor: string) {
    '.' in cursor ==>
      var encoded, tag := cursor[..IndexOf(cursor, '.')], cursor[IndexOf(cursor, '.') + 1..];
      DecodeB64(tag) == Some(suite.mac(c.secret, encoded)) ==>
        exists k :: 0 <= k < |history| &&
          encoded == EncodedPart(suite, history[k].createdAt, history[k].id, history[k].filters)
  }

  /** An accepted cursor yields the position of one that was given out, under filters of the same scope. */
  lemma AcceptedWasMade(suite: Suite, c: Codec, history: seq<Made>, cursor: string, g: Filters)
    requires Lawful(suite) && NotForged(suite, c, history, cursor)
    requires DecodeCursor(suite, c, cursor, g).Ok?
    ensures exists k :: 0 <= k < |history| && Scope(suite, history[k].filters) == Scope(suite, g)
                        && DecodeCursor(suite, c, cursor, g).value == (history[k].createdAt, history[k].id)
  {
    var encoded := cursor[..IndexOf(cursor, '.')];
    var k :| 0 <= k < |history|
             && encoded == EncodedPart(suite, history[k].createdAt, history[k].id, history[k].filters);
    var p := PayloadOf(suite, history[k].createdAt, history[k].id, history[k].filters);
    B64RoundTrip(suite.marshal(p));
    assert suite.unmarshal(suite.marshal(p)) == Some(p);
  }
}
