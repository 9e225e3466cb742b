/** The text form of one encrypted scalar: enc:v1:<kid>:<nonce>:<ciphertext>:<tag>. */
module Envelopes {
  import opened Text
  import opened Values
  import opened Base64Url
  import opened Joining

  const PREFIX := "enc"
  const VERSION := "v1"

  datatype Envelope = Envelope(kid: string, nonce: Bytes, ciphertext: Bytes, tag: Bytes)

  datatype CryptoError =
    | InvalidEnvelope | UnsupportedVersion | UnknownKid | InvalidTag
    | UnsupportedType | EncryptionFailed | PlaintextRejected

  function DecodeSegment(text: string): Result<Bytes, CryptoError> {
    if text == "" then Err(InvalidEnvelope)
    else
      var raw := RawDecode(text);
      if raw == None then Err(InvalidEnvelope) else Ok(raw.value)
  }

  function Segments(e: Envelope): seq<string> {
    [PREFIX, VERSION, e.kid, Encode(e.nonce), Encode(e.ciphertext), Encode(e.tag)]
  }

  function ToString(e: Envelope): string {
    Join(Segments(e), ':')
  }

  predicate IsEnvelope(value: Value) {
    value.Str? && PREFIX + ":" + VERSION + ":" <= value.s
  }

  function ParseEnvelope(value: Value): Result<Envelope, CryptoError> {
    if !value.Str? || '\n' in value.s || '\r' in value.s then Err(InvalidEnvelope)
    else ParseSegments(Split(value.s, ':'))
  }

  function ParseSegments(parts: seq<string>): Result<Envelope, CryptoError> {
    if |parts| != 6 || parts[0] != PREFIX then Err(InvalidEnvelope)
    else if parts[1] != VERSION then Err(UnsupportedVersion)
    else if parts[2] == "" then Err(InvalidEnvelope)
    else
      var nonce, ciphertext, tag := DecodeSegment(parts[3]), DecodeSegment(parts[4]), DecodeSegment(parts[5]);
      if nonce.Err? then Err(nonce.error)
      else if ciphertext.Err? then Err(ciphertext.error)
      else if tag.Err? then Err(tag.error)
      else if |nonce.value| != 12 || |tag.value| != 16 || |ciphertext.value| == 0 then Err(InvalidEnvelope)
      else Ok(Envelope(parts[2], nonce.value, ciphertext.value, tag.value))
  }

  predicate CleanKid(kid: string) {
    kid != "" && ':' !in kid && '\n' !in kid && '\r' !in kid
  }

  predicate WellFormed(e: Envelope) {
    CleanKid(e.kid) && |e.nonce| == 12 && |e.ciphertext| > 0 && |e.tag| == 16
  }

  // ----- printing and parsing -----

  lemma SegmentRoundTrip(b: Bytes)
    requires |b| > 0
    ensures DecodeSegment(Encode(b)) == Ok(b)
    ensures ':' !in Encode(b) && '\n' !in Encode(b) && '\r' !in Encode(b)
  {
    EncodeSymbols(b);
    DecodeEncode(b);
  }

  lemma {:induction false} JoinKeepsOut(parts: seq<string>, c: char)
    requires c != ':'
    ensures c !in Join(parts, ':') <==> forall i :: 0 <= i < |parts| ==> c !in parts[i]
  {
    if |parts| > 1 {
      JoinKeepsOut(parts[1..], c);
      assert Join(parts, ':') == parts[0] + ":" + Join(parts[1..], ':');
      assert forall i :: 0 <= i < |parts| - 1 ==> parts[1..][i] == parts[i + 1];
    }
  }

  /** What an accepted text consists of. */
  predicate PartsOf(parts: seq<string>, e: Envelope) {
    && |parts| == 6 && parts[0] == PREFIX && parts[1] == VERSION && parts[2] == e.kid
    && DecodeSegment(parts[3]) == Ok(e.nonce) && DecodeSegment(parts[4]) == Ok(e.ciphertext)
    && DecodeSegment(parts[5]) == Ok(e.tag)
    && Plain(e.kid) && Plain(parts[3]) && Plain(parts[4]) && Plain(parts[5])
  }

  predicate Plain(text: string) { '\n' !in text && '\r' !in text && ':' !in text }

  lemma ParsedParts(s: string, e: Envelope)
    requires ParseEnvelope(Str(s)) == Ok(e)
    ensures PartsOf(Split(s, ':'), e) && WellFormed(e)
  {
    var parts := Split(s, ':');
    JoinSplit(s, ':');
    JoinKeepsOut(parts, '\n');
    JoinKeepsOut(parts, '\r');
    forall i | 0 <= i < |parts| ensures ':' !in parts[i] {
      assert parts[i] in parts;
    }
  }

  lemma PartsParse(parts: seq<string>, e: Envelope)
    requires PartsOf(parts, e) && WellFormed(e)
    ensures ParseSegments(parts) == Ok(e)
  {
  }

  lemma SegmentsAreParts(e: Envelope)
    requires WellFormed(e)
    ensures PartsOf(Segments(e), e)
  {
    SegmentRoundTrip(e.nonce);
    SegmentRoundTrip(e.ciphertext);
    SegmentRoundTrip(e.tag);
    var parts := Segments(e);
    assert parts[2] == e.kid && parts[3] == Encode(e.nonce) && parts[4] == Encode(e.ciphertext);
    assert parts[5] == Encode(e.tag);
  }

  lemma PartsArePlain(parts: seq<string>, e: Envelope)
    requires PartsOf(parts, e)
    ensures forall i :: 0 <= i < 6 ==> Plain(parts[i])
    ensures Free(':', parts)
  {
    assert Plain(PREFIX) && Plain(VERSION);
    forall i | 0 <= i < 6 ensures Plain(parts[i]) {
      assert i == 0 || i == 1 || i == 2 || i == 3 || i == 4 || i == 5;
    }
  }

  lemma PrintedParses(e: Envelope)
    requires WellFormed(e)
    ensures ParseEnvelope(Str(ToString(e))) == Ok(e)
  {
    var parts := Segments(e);
    SegmentsAreParts(e);
    PartsArePlain(parts, e);
    PartsParse(parts, e);
    SplitJoin(parts, ':');
    JoinKeepsOut(parts, '\n');
    JoinKeepsOut(parts, '\r');
  }

  /** Parsing undoes printing exactly for well-formed envelopes: a kid that is not empty and free of
      ':', CR and LF, a 12-byte nonce, a 16-byte tag and some ciphertext. */
  lemma EnvelopeRoundTrip(e: Envelope)
    ensures ParseEnvelope(Str(ToString(e))) == Ok(e) <==> WellFormed(e)
  {
    if WellFormed(e) {
      PrintedParses(e);
    } else if ParseEnvelope(Str(ToString(e))) == Ok(e) {
      ParsedParts(ToString(e), e);
    }
  }

  /** A kid that is empty or holds ':', CR or LF makes an envelope nobody can parse. */
  lemma DirtyKidRejected(e: Envelope)
    requires !CleanKid(e.kid)
    ensures ParseEnvelope(Str(ToString(e))) == Err(InvalidEnvelope)
  {
    var parts := Segments(e);
    assert parts[2] == e.kid;
    JoinKeepsOut(parts, '\n');
    JoinKeepsOut(parts, '\r');
    if ':' in e.kid {
      CountZero(e.kid, ':');
      CountOfJoin(parts, 2, ':');
      PiecesOfSplit(ToString(e), ':');
    } else if e.kid == "" {
      EncodeSymbols(e.nonce);
      EncodeSymbols(e.ciphertext);
      EncodeSymbols(e.tag);
      assert ':' !in PREFIX && ':' !in VERSION;
      assert forall i :: 0 <= i < 6 ==> ':' !in parts[i];
      SplitJoin(parts, ':');
    }
  }

  /** Whatever is printed is recognised by its prefix, well-formed or not. */
  lemma PrintedIsEnvelope(e: Envelope)
    ensures IsEnvelope(Str(ToString(e)))
  {
    var head, tail := [PREFIX, VERSION], Segments(e)[2..];
    assert Segments(e) == head + tail;
    JoinAppend(head, tail, ':');
    JoinPair(PREFIX, VERSION, ':');
    assert PREFIX + ":" + VERSION + ([':'] + Join(tail, ':')) == (PREFIX + ":" + VERSION + ":") + Join(tail, ':');
  }

  predicate LeftOverBitsZero(text: string) {
    AllSymbols(StripBreaks(text)) && TrailingBitsZero(StripBreaks(text))
  }

  lemma SegmentIsPrintedExactly(text: string, b: Bytes)
    requires DecodeSegment(text) == Ok(b) && '\n' !in text && '\r' !in text
    ensures Encode(b) == text <==> LeftOverBitsZero(text)
  {
    RawAcceptsMore(text, b);
  }

  lemma ReprintedParts(parts: seq<string>, e: Envelope)
    requires PartsOf(parts, e)
    ensures Segments(e) == parts <==>
            LeftOverBitsZero(parts[3]) && LeftOverBitsZero(parts[4]) && LeftOverBitsZero(parts[5])
  {
    SegmentIsPrintedExactly(parts[3], e.nonce);
    SegmentIsPrintedExactly(parts[4], e.ciphertext);
    SegmentIsPrintedExactly(parts[5], e.tag);
    var printed := Segments(e);
    assert printed[3] == Encode(e.nonce) && printed[4] == Encode(e.ciphertext) && printed[5] == Encode(e.tag);
    SameTail(printed, parts);
  }

  lemma SameTail(p: seq<string>, q: seq<string>)
    requires |p| == |q| == 6 && p[0] == q[0] && p[1] == q[1] && p[2] == q[2]
    ensures p == q <==> p[3] == q[3] && p[4] == q[4] && p[5] == q[5]
  {
  }

  /** Parsing is not injective: an accepted text is the printed form of what it parses to exactly
      when none of its three encoded segments has left-over bits set. */
  lemma ParsedIsPrintedExactly(s: string, e: Envelope)
    requires ParseEnvelope(Str(s)) == Ok(e)
    ensures var parts := Split(s, ':');
            && |parts| == 6
            && (ToString(e) == s <==>
                LeftOverBitsZero(parts[3]) && LeftOverBitsZero(parts[4]) && LeftOverBitsZero(parts[5]))
  {
    var parts := Split(s, ':');
    ParsedParts(s, e);
    JoinSplit(s, ':');
    ReprintedParts(parts, e);
    if ToString(e) == s {
      SegmentsAreParts(e);
      PartsArePlain(Segments(e), e);
      JoinInjective(Segments(e), parts, ':');
    }
  }

  // ----- the format itself -----

  lemma JoinCons(head: string, tail: seq<string>)
    requires |tail| > 0
    ensures Join([head] + tail, ':') == head + ":" + Join(tail, ':')
  {
    assert ([head] + tail)[1..] == tail;
  }

  lemma PrefixText(rest: string)
    ensures PREFIX + ":" + (VERSION + ":" + rest) == "enc:v1:" + rest
  {
    assert PREFIX + ":" + (VERSION + ":" + rest) == (PREFIX + ":" + VERSION + ":") + rest;
    assert PREFIX + ":" + VERSION + ":" == "enc:v1:";
  }

  /** Six fields between colons. */
  lemma LayoutExactly(e: Envelope)
    ensures ToString(e)
            == "enc:v1:" + (e.kid + ":" + (Encode(e.nonce) + ":" + (Encode(e.ciphertext) + ":" + Encode(e.tag))))
  {
    var last := [Encode(e.nonce), Encode(e.ciphertext), Encode(e.tag)];
    JoinTriple(last[0], last[1], last[2], ':');
    JoinCons(e.kid, last);
    JoinCons(VERSION, [e.kid] + last);
    JoinCons(PREFIX, [VERSION] + ([e.kid] + last));
    assert Segments(e) == [PREFIX] + ([VERSION] + ([e.kid] + last));
    PrefixText(e.kid + ":" + Join(last, ':'));
  }

  /** Accepted are exactly the texts of six such fields without line breaks. */
  lemma ParsesExactly(s: string, e: Envelope)
    ensures ParseEnvelope(Str(s)) == Ok(e) <==> PartsOf(Split(s, ':'), e) && WellFormed(e)
  {
    if ParseEnvelope(Str(s)) == Ok(e) {
      ParsedParts(s, e);
    } else if PartsOf(Split(s, ':'), e) && WellFormed(e) {
      PartsArePlain(Split(s, ':'), e);
      PartsParse(Split(s, ':'), e);
      JoinKeepsOut(Split(s, ':'), '\n');
      JoinKeepsOut(Split(s, ':'), '\r');
      JoinSplit(s, ':');
    }
  }

  /** A text of six fields that begins with `enc` but not with `enc:v1` has an unsupported version; everything
      else that is not accepted is invalid. */
  lemma ParseErrorsExactly(value: Value)
    ensures ParseEnvelope(value) == Err(UnsupportedVersion) <==>
            && value.Str? && '\n' !in value.s && '\r' !in value.s
            && var parts := Split(value.s, ':'); |parts| == 6 && parts[0] == "enc" && parts[1] != "v1"
    ensures ParseEnvelope(value).Err? ==> ParseEnvelope(value).error in {InvalidEnvelope, UnsupportedVersion}
  {
  }
}
