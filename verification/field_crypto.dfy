/** Encrypting the scalar leaves of a JSON tree, and decrypting them again. */
module FieldCrypto {
  import opened Text
  import opened Values
  import opened Base64Url
  import opened Envelopes

  // ----- what is taken as given -----

  /** The JSON object {"t": ..., "v": ...} around one scalar. */
  datatype Tagged = Tagged(t: string, v: Value)

  /** JSON text of tagged scalars, the int-to-float64 conversion, and AES-GCM. */
  datatype Suite = Suite(
    marshal: Tagged -> Bytes,
    unmarshal: Bytes -> Option<Tagged>,
    toFloat: int -> Float64,
    seal: (Bytes, Bytes, Bytes, string) -> Bytes,
    open: (Bytes, Bytes, Bytes, string) -> Option<Bytes>)

  predicate Scalar(v: Value) { v.Nil? || v.Bool? || v.Float? || v.Int? || v.Str? }

  /** A printed scalar parses back (Go integers are made float64 before they are printed), AES-GCM opens
      what it sealed, and a sealed text is its plain text's length plus a 16-byte tag. */
  ghost predicate Lawful(suite: Suite) {
    && (forall x: Tagged :: Scalar(x.v) && !x.v.Int? ==>
          suite.unmarshal(suite.marshal(x)) == Some(x) && |suite.marshal(x)| > 0)
    && (forall key, nonce, plain, aad ::
          && |suite.seal(key, nonce, plain, aad)| == |plain| + 16
          && suite.open(key, nonce, suite.seal(key, nonce, plain, aad), aad) == Some(plain))
  }

  // ----- scalars -----

  function EncodeValue(suite: Suite, value: Value): Result<Bytes, CryptoError> {
    match value
    case Nil => Ok(suite.marshal(Tagged("null", Nil)))
    case Bool(_) => Ok(suite.marshal(Tagged("bool", value)))
    case Float(_) => Ok(suite.marshal(Tagged("num", value)))
    case Int(i) => Ok(suite.marshal(Tagged("num", Float(suite.toFloat(i)))))
    case Str(_) => Ok(suite.marshal(Tagged("str", value)))
    case _ => Err(UnsupportedType)
  }

  function DecodeValue(suite: Suite, raw: Bytes): Result<Value, CryptoError> {
    var tagged := suite.unmarshal(raw);
    if tagged == None then Err(UnsupportedType)
    else
      var Tagged(t, v) := tagged.value;
      if t == "null" then (if v.Nil? then Ok(Nil) else Err(UnsupportedType))
      else if t == "bool" then (if v.Bool? then Ok(v) else Err(UnsupportedType))
      else if t == "num" then (if v.Float? then Ok(v) else Err(UnsupportedType))
      else if t == "str" then (if v.Str? then Ok(v) else Err(UnsupportedType))
      else Err(UnsupportedType)
  }

  /** What a scalar comes back as: Go integers become float64. */
  function FloatedScalar(suite: Suite, value: Value): Value {
    if value.Int? then Float(suite.toFloat(value.i)) else value
  }

  lemma ValueRoundTrip(suite: Suite, value: Value)
    requires Lawful(suite) && Scalar(value)
    ensures EncodeValue(suite, value).Ok? && |EncodeValue(suite, value).value| > 0
    ensures DecodeValue(suite, EncodeValue(suite, value).value) == Ok(FloatedScalar(suite, value))
  {
    var v := FloatedScalar(suite, value);
    assert Scalar(Tagged("null", v).v) && Scalar(Tagged("bool", v).v) && !v.Int?;
    assert Scalar(Tagged("num", v).v) && Scalar(Tagged("str", v).v);
  }

  /** The tag that goes with a decoded scalar. */
  predicate TagFits(t: string, v: Value) {
    (t == "null" && v.Nil?) || (t == "bool" && v.Bool?) || (t == "num" && v.Float?) || (t == "str" && v.Str?)
  }

  ghost predicate EncodedAs(suite: Suite, value: Value, t: string) {
    && TagFits(t, FloatedScalar(suite, value))
    && EncodeValue(suite, value) == Ok(suite.marshal(Tagged(t, FloatedScalar(suite, value))))
  }

  /** Encoded is every scalar, with the tag of its kind; nothing else. */
  lemma EncodeExactly(suite: Suite, value: Value)
    ensures Scalar(value) ==> exists t :: EncodedAs(suite, value, t)
    ensures !Scalar(value) ==> EncodeValue(suite, value) == Err(UnsupportedType)
  {
    var v := FloatedScalar(suite, value);
    var t := if v.Nil? then "null" else if v.Bool? then "bool" else if v.Float? then "num" else "str";
    if Scalar(value) {
      assert EncodedAs(suite, value, t);
    }
  }

  /** Decoded is exactly a scalar under its own tag. */
  lemma DecodeExactly(suite: Suite, raw: Bytes, v: Value)
    ensures DecodeValue(suite, raw) == Ok(v) <==>
            exists t :: suite.unmarshal(raw) == Some(Tagged(t, v)) && TagFits(t, v)
    ensures DecodeValue(suite, raw).Err? ==> DecodeValue(suite, raw).error == UnsupportedType
  {
    var tagged := suite.unmarshal(raw);
    if tagged.Some? {
      assert tagged.value == Tagged(tagged.value.t, tagged.value.v);
      assert "null" != "bool" && |"null"| != |"num"| && "num" != "str" && |"bool"| != |"str"|;
    }
  }

  // ----- keys -----

  datatype Keys = Keys(active: string, keys: map<string, Bytes>)

  function KeyFor(keys: Keys, kid: string): Result<Bytes, CryptoError> {
    if kid in keys.keys then Ok(keys.keys[kid]) else Err(UnknownKid)
  }

  /** AES takes keys of 16, 24 or 32 bytes. */
  predicate AesKey(key: Bytes) { |key| in [16, 24, 32] }

  function Aad(kid: string): string {
    PREFIX + ":" + VERSION + ":" + kid
  }

  // ----- one leaf -----

  function EncryptLeaf(suite: Suite, kid: string, key: Bytes, nonce: Bytes, value: Value): Result<Value, CryptoError> {
    var plain := EncodeValue(suite, value);
    if plain.Err? then Err(plain.error)
    else
      var sealed := suite.seal(key, nonce, plain.value, Aad(kid));
      if |sealed| < 16 then Err(EncryptionFailed)
      else Ok(Str(ToString(Envelope(kid, nonce, sealed[..|sealed| - 16], sealed[|sealed| - 16..]))))
  }

  function DecryptValue(suite: Suite, keys: Keys, ciphertext: Value): Result<Value, CryptoError> {
    var parsed := ParseEnvelope(ciphertext);
    if parsed.Err? then Err(parsed.error)
    else
      var e := parsed.value;
      var key := KeyFor(keys, e.kid);
      if key.Err? then Err(key.error)
      else if !AesKey(key.value) then Err(InvalidTag)
      else
        var plain := suite.open(key.value, e.nonce, e.ciphertext + e.tag, Aad(e.kid));
        if plain == None then Err(InvalidTag) else DecodeValue(suite, plain.value)
  }

  function DecryptLeaf(suite: Suite, keys: Keys, value: Value): Result<Value, CryptoError> {
    if !IsEnvelope(value) then Err(PlaintextRejected) else DecryptValue(suite, keys, value)
  }

  /** One leaf comes back exactly when its kid survives the envelope. */
  lemma LeafRoundTrip(suite: Suite, keys: Keys, kid: string, nonce: Bytes, value: Value)
    requires Lawful(suite) && Scalar(value) && |nonce| == 12
    requires kid in keys.keys && AesKey(keys.keys[kid])
    ensures var sealed := EncryptLeaf(suite, kid, keys.keys[kid], nonce, value);
            && sealed.Ok? && IsEnvelope(sealed.value)
            && (CleanKid(kid) ==> DecryptLeaf(suite, keys, sealed.value) == Ok(FloatedScalar(suite, value)))
            && (!CleanKid(kid) ==> DecryptLeaf(suite, keys, sealed.value) == Err(InvalidEnvelope))
  {
    ValueRoundTrip(suite, value);
    var key, plain := keys.keys[kid], EncodeValue(suite, value).value;
    var sealed := suite.seal(key, nonce, plain, Aad(kid));
    assert |sealed| == |plain| + 16 && suite.open(key, nonce, sealed, Aad(kid)) == Some(plain);
    var e := Envelope(kid, nonce, sealed[..|sealed| - 16], sealed[|sealed| - 16..]);
    assert e.ciphertext + e.tag == sealed;
    PrintedIsEnvelope(e);
    if CleanKid(kid) {
      PrintedParses(e);
    } else {
      DirtyKidRejected(e);
    }
  }

  /** The additional data names the kid, and tells every kid from every other. */
  lemma AadExactly(kid: string, other: string)
    ensures Aad(kid) == "enc:v1:" + kid
    ensures Aad(kid) == Aad(other) <==> kid == other
  {
    assert PREFIX + ":" + VERSION + ":" == "enc:v1:";
    assert Aad(kid)[7..] == kid && Aad(other)[7..] == other;
  }

  /** The text of an envelope with these parts, which hold `sealed` and its 16-byte tag. */
  predicate Holds(leaf: Value, kid: string, nonce: Bytes, sealed: Bytes, ciphertext: Bytes, tag: Bytes) {
    leaf == Str(ToString(Envelope(kid, nonce, ciphertext, tag))) && ciphertext + tag == sealed && |tag| == 16
  }

  /** What a sealed leaf holds: the kid, the nonce drawn, and the encoded scalar sealed under them. */
  ghost predicate Carries(suite: Suite, leaf: Value, kid: string, key: Bytes, nonce: Bytes, value: Value) {
    && EncodeValue(suite, value).Ok?
    && var sealed := suite.seal(key, nonce, EncodeValue(suite, value).value, "enc:v1:" + kid);
       exists ciphertext, tag :: Holds(leaf, kid, nonce, sealed, ciphertext, tag)
  }

  lemma SealedIsCut(sealed: Bytes)
    requires |sealed| >= 16
    ensures sealed[..|sealed| - 16] + sealed[|sealed| - 16..] == sealed
  {
  }

  lemma LeafCarries(suite: Suite, kid: string, key: Bytes, nonce: Bytes, value: Value)
    requires Lawful(suite)
    ensures var leaf := EncryptLeaf(suite, kid, key, nonce, value);
            && (leaf.Ok? <==> Scalar(value)) && (leaf.Err? ==> leaf.error == UnsupportedType)
            && (leaf.Ok? ==> Carries(suite, leaf.value, kid, key, nonce, value))
  {
    EncodeExactly(suite, value);
    AadExactly(kid, kid);
    if Scalar(value) {
      var plain := EncodeValue(suite, value).value;
      var sealed := suite.seal(key, nonce, plain, Aad(kid));
      assert |sealed| == |plain| + 16;
      SealedIsCut(sealed);
      var leaf := EncryptLeaf(suite, kid, key, nonce, value).value;
      assert Holds(leaf, kid, nonce, sealed, sealed[..|sealed| - 16], sealed[|sealed| - 16..]);
    }
  }

  /** How a sealed leaf fails with another ring, and how a plain one does. */
  lemma OtherRingFails(suite: Suite, keys: Keys, kid: string, key: Bytes, nonce: Bytes, value: Value)
    requires Lawful(suite) && Scalar(value) && |nonce| == 12 && CleanKid(kid)
    ensures var leaf := EncryptLeaf(suite, kid, key, nonce, value).value;
            && (kid !in keys.keys ==> DecryptLeaf(suite, keys, leaf) == Err(UnknownKid))
            && (kid in keys.keys && !AesKey(keys.keys[kid]) ==> DecryptLeaf(suite, keys, leaf) == Err(InvalidTag))
            && (kid in keys.keys
                && suite.open(keys.keys[kid], nonce, suite.seal(key, nonce, EncodeValue(suite, value).value, Aad(kid)),
                              Aad(kid)) == None
                ==> DecryptLeaf(suite, keys, leaf) == Err(InvalidTag))
    ensures forall plain :: !IsEnvelope(plain) ==> DecryptLeaf(suite, keys, plain) == Err(PlaintextRejected)
  {
    ValueRoundTrip(suite, value);
    var plain := EncodeValue(suite, value).value;
    var sealed := suite.seal(key, nonce, plain, Aad(kid));
    assert |sealed| == |plain| + 16;
    var e := Envelope(kid, nonce, sealed[..|sealed| - 16], sealed[|sealed| - 16..]);
    assert e.ciphertext + e.tag == sealed;
    PrintedIsEnvelope(e);
    PrintedParses(e);
  }

  // ----- trees -----

  function CountScalars(v: Value): nat {
    match v
    case Object(fields) => CountFields(fields)
    case List(items) => CountItems(items)
    case _ => 1
  }

  function CountFields(fields: seq<Field>): nat {
    if |fields| == 0 then 0 else CountScalars(fields[0].value) + CountFields(fields[1..])
  }

  function CountItems(items: seq<Value>): nat {
    if |items| == 0 then 0 else CountScalars(items[0]) + CountItems(items[1..])
  }

  /** The scalar leaves, left to right. */
  function Leaves(v: Value): seq<Value> {
    match v
    case Object(fields) => FieldLeaves(fields)
    case List(items) => ItemLeaves(items)
    case _ => [v]
  }

  function FieldLeaves(fields: seq<Field>): seq<Value> {
    if |fields| == 0 then [] else Leaves(fields[0].value) + FieldLeaves(fields[1..])
  }

  function ItemLeaves(items: seq<Value>): seq<Value> {
    if |items| == 0 then [] else Leaves(items[0]) + ItemLeaves(items[1..])
  }

  /** The same keys and the same nesting, whatever the leaves. */
  predicate SameShape(v: Value, w: Value) {
    match v
    case Object(fields) => w.Object? && SameFields(fields, w.fields)
    case List(items) => w.List? && SameItems(items, w.items)
    case _ => !w.Object? && !w.List?
  }

  predicate SameFields(f: seq<Field>, g: seq<Field>) {
    if |f| == 0 then |g| == 0
    else |g| > 0 && f[0].key == g[0].key && SameShape(f[0].value, g[0].value) && SameFields(f[1..], g[1..])
  }

  predicate SameItems(f: seq<Value>, g: seq<Value>) {
    if |f| == 0 then |g| == 0 else |g| > 0 && SameShape(f[0], g[0]) && SameItems(f[1..], g[1..])
  }

  /** The tree with every Go integer turned into the float64 it comes back as. */
  function Floated(suite: Suite, v: Value): Value {
    match v
    case Object(fields) => Object(FloatedFields(suite, fields))
    case List(items) => List(FloatedItems(suite, items))
    case _ => FloatedScalar(suite, v)
  }

  function FloatedFields(suite: Suite, fields: seq<Field>): seq<Field> {
    if |fields| == 0 then []
    else [Field(fields[0].key, Floated(suite, fields[0].value))] + FloatedFields(suite, fields[1..])
  }

  function FloatedItems(suite: Suite, items: seq<Value>): seq<Value> {
    if |items| == 0 then [] else [Floated(suite, items[0])] + FloatedItems(suite, items[1..])
  }

  // ----- encryption: one nonce per leaf, drawn in order -----

  /** The n-th draw from the random source; `None` when reading it fails. */
  type Draws = nat -> Option<Bytes>

  function EncryptNode(suite: Suite, draw: Draws, kid: string, key: Bytes, next: nat, v: Value)
    : (Result<Value, CryptoError>, nat)
    decreases v, 1
  {
    match v
    case Object(fields) =>
      var (r, n) := EncryptFields(suite, draw, kid, key, next, fields);
      (if r.Err? then Err(r.error) else Ok(Object(r.value)), n)
    case List(items) =>
      var (r, n) := EncryptItems(suite, draw, kid, key, next, items);
      (if r.Err? then Err(r.error) else Ok(List(r.value)), n)
    case _ =>
      var nonce := draw(next);
      (if nonce == None then Err(EncryptionFailed) else EncryptLeaf(suite, kid, key, nonce.value, v), next + 1)
  }

  function EncryptFields(suite: Suite, draw: Draws, kid: string, key: Bytes, next: nat, fields: seq<Field>)
    : (Result<seq<Field>, CryptoError>, nat)
    decreases fields, 0
  {
    if |fields| == 0 then (Ok([]), next)
    else
      var (head, n) := EncryptNode(suite, draw, kid, key, next, fields[0].value);
      if head.Err? then (Err(head.error), n)
      else
        var (tail, m) := EncryptFields(suite, draw, kid, key, n, fields[1..]);
        (if tail.Err? then tail else Ok([Field(fields[0].key, head.value)] + tail.value), m)
  }

  function EncryptItems(suite: Suite, draw: Draws, kid: string, key: Bytes, next: nat, items: seq<Value>)
    : (Result<seq<Value>, CryptoError>, nat)
    decreases items, 0
  {
    if |items| == 0 then (Ok([]), next)
    else
      var (head, n) := EncryptNode(suite, draw, kid, key, next, items[0]);
      if head.Err? then (Err(head.error), n)
      else
        var (tail, m) := EncryptItems(suite, draw, kid, key, n, items[1..]);
        (if tail.Err? then tail else Ok([head.value] + tail.value), m)
  }

  // ----- decryption -----

  function DecryptJSON(suite: Suite, keys: Keys, v: Value): Result<Value, CryptoError>
    decreases v, 1
  {
    match v
    case Object(fields) =>
      var r := DecryptFields(suite, keys, fields);
      if r.Err? then Err(r.error) else Ok(Object(r.value))
    case List(items) =>
      var r := DecryptItems(suite, keys, items);
      if r.Err? then Err(r.error) else Ok(List(r.value))
    case _ => DecryptLeaf(suite, keys, v)
  }

  function DecryptFields(suite: Suite, keys: Keys, fields: seq<Field>): Result<seq<Field>, CryptoError>
    decreases fields, 0
  {
    if |fields| == 0 then Ok([])
    else
      var head := DecryptJSON(suite, keys, fields[0].value);
      if head.Err? then Err(head.error)
      else
        var tail := DecryptFields(suite, keys, fields[1..]);
        if tail.Err? then tail else Ok([Field(fields[0].key, head.value)] + tail.value)
  }

  function DecryptItems(suite: Suite, keys: Keys, items: seq<Value>): Result<seq<Value>, CryptoError>
    decreases items, 0
  {
    if |items| == 0 then Ok([])
    else
      var head := DecryptJSON(suite, keys, items[0]);
      if head.Err? then Err(head.error)
      else
        var tail := DecryptItems(suite, keys, items[1..]);
        if tail.Err? then tail else Ok([head.value] + tail.value)
  }

  function EncryptJSON(suite: Suite, draw: Draws, keys: Keys, requested: string, next: nat, v: Value)
    : (Result<Value, CryptoError>, nat)
  {
    var kid := if requested == "" then keys.active else requested;
    var key := KeyFor(keys, kid);
    if key.Err? then (Err(key.error), next)
    else if !AesKey(key.value) then (Err(EncryptionFailed), next)
    else EncryptNode(suite, draw, kid, key.value, next, v)
  }

  // ----- encryption and decryption, leaf by leaf -----

  type Step = (nat, Value) -> Result<Value, CryptoError>

  /** What becomes of a leaf whose nonce is the `n`-th draw. */
  function LeafStep(suite: Suite, draw: Draws, kid: string, key: Bytes): Step {
    (n: nat, leaf: Value) =>
      if draw(n) == None then Err(EncryptionFailed) else EncryptLeaf(suite, kid, key, draw(n).value, leaf)
  }

  /** From draw `next` on, the leaves become `out`, one draw each and in order; or the first that fails gives the
      error, and nothing more is drawn. */
  ghost predicate InTurn(step: Step, next: nat, leaves: seq<Value>, out: Result<seq<Value>, CryptoError>, after: nat) {
    match out
    case Ok(sealed) =>
      && after == next + |leaves| && |sealed| == |leaves|
      && forall i :: 0 <= i < |leaves| ==> step(next + i, leaves[i]) == Ok(sealed[i])
    case Err(e) => exists k :: FailsAt(step, next, leaves, e, k) && after == next + k + 1
  }

  ghost predicate FailsAt(step: Step, next: nat, leaves: seq<Value>, e: CryptoError, k: nat) {
    && k < |leaves| && step(next + k, leaves[k]) == Err(e)
    && forall i :: 0 <= i < k ==> step(next + i, leaves[i]).Ok?
  }

  lemma TurnsThen(step: Step, next: nat, a: seq<Value>, x: seq<Value>, mid: nat, b: seq<Value>,
                  y: Result<seq<Value>, CryptoError>, after: nat)
    requires InTurn(step, next, a, Ok(x), mid) && InTurn(step, mid, b, y, after)
    ensures InTurn(step, next, a + b, if y.Ok? then Ok(x + y.value) else y, after)
  {
    if y.Ok? {
      forall i | 0 <= i < |a + b| ensures step(next + i, (a + b)[i]) == Ok((x + y.value)[i]) {
        if i >= |a| {
          var j := i - |a|;
          assert step(mid + j, b[j]) == Ok(y.value[j]) && mid + j == next + i;
        }
      }
    } else {
      var k :| FailsAt(step, mid, b, y.error, k) && after == mid + k + 1;
      assert mid + k == next + (|a| + k);
      forall i | 0 <= i < |a| + k ensures step(next + i, (a + b)[i]).Ok? {
        if i >= |a| {
          var j := i - |a|;
          assert step(mid + j, b[j]).Ok? && mid + j == next + i;
        }
      }
      assert FailsAt(step, next, a + b, y.error, |a| + k);
    }
  }

  lemma TurnsStop(step: Step, next: nat, a: seq<Value>, e: CryptoError, after: nat, b: seq<Value>)
    requires InTurn(step, next, a, Err(e), after)
    ensures InTurn(step, next, a + b, Err(e), after)
  {
    var k :| FailsAt(step, next, a, e, k) && after == next + k + 1;
    assert FailsAt(step, next, a + b, e, k);
  }

  lemma OneTurn(step: Step, next: nat, leaf: Value)
    ensures var r := step(next, leaf);
            InTurn(step, next, [leaf], if r.Ok? then Ok([r.value]) else Err(r.error), next + 1)
  {
    assert [leaf][0] == leaf && next + 0 == next;
    if step(next, leaf).Err? {
      assert FailsAt(step, next, [leaf], step(next, leaf).error, 0);
    }
  }

  ghost predicate Leafwise(suite: Suite, draw: Draws, kid: string, key: Bytes, next: nat, leaves: seq<Value>,
                           out: Result<seq<Value>, CryptoError>, after: nat)
  {
    InTurn(LeafStep(suite, draw, kid, key), next, leaves, out, after)
  }

  lemma {:induction false} NodeIsLeafwise(suite: Suite, draw: Draws, kid: string, key: Bytes, next: nat, v: Value)
    ensures var (r, after) := EncryptNode(suite, draw, kid, key, next, v);
            && Leafwise(suite, draw, kid, key, next, Leaves(v),
                        if r.Ok? then Ok(Leaves(r.value)) else Err(r.error), after)
            && (r.Ok? ==> SameShape(v, r.value))
    decreases v, 1
  {
    if v.Object? {
      FieldsAreLeafwise(suite, draw, kid, key, next, v.fields);
    } else if v.List? {
      ItemsAreLeafwise(suite, draw, kid, key, next, v.items);
    } else {
      OneTurn(LeafStep(suite, draw, kid, key), next, v);
      assert Leaves(v) == [v];
    }
  }

  lemma {:induction false} FieldsAreLeafwise(suite: Suite, draw: Draws, kid: string, key: Bytes, next: nat,
                                             fields: seq<Field>)
    ensures var (r, after) := EncryptFields(suite, draw, kid, key, next, fields);
            && Leafwise(suite, draw, kid, key, next, FieldLeaves(fields),
                        if r.Ok? then Ok(FieldLeaves(r.value)) else Err(r.error), after)
            && (r.Ok? ==> SameFields(fields, r.value))
    decreases fields, 0
  {
    if |fields| > 0 {
      var v, rest := fields[0].value, FieldLeaves(fields[1..]);
      var (head, n) := EncryptNode(suite, draw, kid, key, next, v);
      NodeIsLeafwise(suite, draw, kid, key, next, v);
      if head.Err? {
        TurnsStop(LeafStep(suite, draw, kid, key), next, Leaves(v), head.error, n, rest);
      } else {
        var (tail, m) := EncryptFields(suite, draw, kid, key, n, fields[1..]);
        FieldsAreLeafwise(suite, draw, kid, key, n, fields[1..]);
        TurnsThen(LeafStep(suite, draw, kid, key), next, Leaves(v), Leaves(head.value), n, rest,
                     if tail.Ok? then Ok(FieldLeaves(tail.value)) else Err(tail.error), m);
        if tail.Ok? {
          assert ([Field(fields[0].key, head.value)] + tail.value)[1..] == tail.value;
        }
      }
    }
  }

  lemma {:induction false} ItemsAreLeafwise(suite: Suite, draw: Draws, kid: string, key: Bytes, next: nat,
                                            items: seq<Value>)
    ensures var (r, after) := EncryptItems(suite, draw, kid, key, next, items);
            && Leafwise(suite, draw, kid, key, next, ItemLeaves(items),
                        if r.Ok? then Ok(ItemLeaves(r.value)) else Err(r.error), after)
            && (r.Ok? ==> SameItems(items, r.value))
    decreases items, 0
  {
    if |items| > 0 {
      var rest := ItemLeaves(items[1..]);
      var (head, n) := EncryptNode(suite, draw, kid, key, next, items[0]);
      NodeIsLeafwise(suite, draw, kid, key, next, items[0]);
      if head.Err? {
        TurnsStop(LeafStep(suite, draw, kid, key), next, Leaves(items[0]), head.error, n, rest);
      } else {
        var (tail, m) := EncryptItems(suite, draw, kid, key, n, items[1..]);
        ItemsAreLeafwise(suite, draw, kid, key, n, items[1..]);
        TurnsThen(LeafStep(suite, draw, kid, key), next, Leaves(items[0]), Leaves(head.value), n, rest,
                     if tail.Ok? then Ok(ItemLeaves(tail.value)) else Err(tail.error), m);
        if tail.Ok? {
          assert ([head.value] + tail.value)[1..] == tail.value;
        }
      }
    }
  }

  /** An unknown kid or a key of a wrong size is refused before anything is drawn. Otherwise a tree is encrypted
      leaf by leaf from left to right, each under the next draw, up to the first leaf that fails. */
  lemma EncryptionIsLeafwise(suite: Suite, draw: Draws, keys: Keys, requested: string, next: nat, v: Value)
    ensures var kid := if requested == "" then keys.active else requested;
            var (r, after) := EncryptJSON(suite, draw, keys, requested, next, v);
            if kid !in keys.keys then r == Err(UnknownKid) && after == next
            else if |keys.keys[kid]| !in {16, 24, 32} then r == Err(EncryptionFailed) && after == next
            else
              && Leafwise(suite, draw, kid, keys.keys[kid], next, Leaves(v),
                          if r.Ok? then Ok(Leaves(r.value)) else Err(r.error), after)
              && (r.Ok? ==> SameShape(v, r.value))
  {
    var kid := if requested == "" then keys.active else requested;
    if kid in keys.keys {
      NodeIsLeafwise(suite, draw, kid, keys.keys[kid], next, v);
    }
  }

  /** So the i-th leaf of a ciphertext carries the i-th leaf of the payload, sealed under the i-th nonce drawn. */
  lemma LeavesCarryDraws(suite: Suite, draw: Draws, keys: Keys, requested: string, next: nat, v: Value, i: nat)
    requires Lawful(suite) && EncryptJSON(suite, draw, keys, requested, next, v).0.Ok? && i < |Leaves(v)|
    ensures var kid := if requested == "" then keys.active else requested;
            var leaves := Leaves(EncryptJSON(suite, draw, keys, requested, next, v).0.value);
            && kid in keys.keys && |leaves| == |Leaves(v)| && draw(next + i).Some?
            && Carries(suite, leaves[i], kid, keys.keys[kid], draw(next + i).value, Leaves(v)[i])
  {
    var kid := if requested == "" then keys.active else requested;
    EncryptionIsLeafwise(suite, draw, keys, requested, next, v);
    var leaves := Leaves(EncryptJSON(suite, draw, keys, requested, next, v).0.value);
    assert LeafStep(suite, draw, kid, keys.keys[kid])(next + i, Leaves(v)[i]) == Ok(leaves[i]);
    LeafCarries(suite, kid, keys.keys[kid], draw(next + i).value, Leaves(v)[i]);
  }

  lemma {:induction false} CountIsLeaves(v: Value)
    ensures CountScalars(v) == |Leaves(v)|
    decreases v, 1
  {
    if v.Object? {
      CountIsFieldLeaves(v.fields);
    } else if v.List? {
      CountIsItemLeaves(v.items);
    }
  }

  lemma {:induction false} CountIsFieldLeaves(fields: seq<Field>)
    ensures CountFields(fields) == |FieldLeaves(fields)|
    decreases fields, 0
  {
    if |fields| > 0 {
      CountIsLeaves(fields[0].value);
      CountIsFieldLeaves(fields[1..]);
    }
  }

  lemma {:induction false} CountIsItemLeaves(items: seq<Value>)
    ensures CountItems(items) == |ItemLeaves(items)|
    decreases items, 0
  {
    if |items| > 0 {
      CountIsLeaves(items[0]);
      CountIsItemLeaves(items[1..]);
    }
  }

  // ----- what encryption produces, and what it takes to undo it -----

  ghost predicate FullDraws(draw: Draws) {
    forall n :: draw(n).Some? && |draw(n).value| == 12
  }

  predicate AllScalar(leaves: seq<Value>) {
    forall v :: v in leaves ==> Scalar(v)
  }

  /** The ciphertext `c` of `v`: same shape, one envelope per scalar, one nonce each; it opens to `v`
      if the kid survives the envelope, and is rejected otherwise. */
  ghost predicate Sealed(suite: Suite, keys: Keys, kid: string, next: nat, v: Value, c: Value, after: nat) {
    && SameShape(v, c) && CountScalars(c) == CountScalars(v) && after == next + CountScalars(v)
    && (forall leaf :: leaf in Leaves(c) ==> IsEnvelope(leaf))
    && DecryptJSON(suite, keys, c) ==
       (if CleanKid(kid) || CountScalars(v) == 0 then Ok(Floated(suite, v)) else Err(InvalidEnvelope))
  }

  lemma {:induction false} NodeSeals(suite: Suite, draw: Draws, keys: Keys, kid: string, next: nat, v: Value)
    requires Lawful(suite) && FullDraws(draw) && kid in keys.keys && AesKey(keys.keys[kid]) && AllScalar(Leaves(v))
    ensures var (c, n) := EncryptNode(suite, draw, kid, keys.keys[kid], next, v);
            c.Ok? && Sealed(suite, keys, kid, next, v, c.value, n)
    decreases v, 1
  {
    if v.Object? {
      FieldsSeal(suite, draw, keys, kid, next, v.fields);
    } else if v.List? {
      ItemsSeal(suite, draw, keys, kid, next, v.items);
    } else {
      assert v in Leaves(v);
      LeafRoundTrip(suite, keys, kid, draw(next).value, v);
    }
  }

  lemma {:induction false} FieldsSeal(suite: Suite, draw: Draws, keys: Keys, kid: string, next: nat, fields: seq<Field>)
    requires Lawful(suite) && FullDraws(draw) && kid in keys.keys && AesKey(keys.keys[kid])
    requires AllScalar(FieldLeaves(fields))
    ensures var (c, n) := EncryptFields(suite, draw, kid, keys.keys[kid], next, fields);
            c.Ok? && Sealed(suite, keys, kid, next, Object(fields), Object(c.value), n)
    decreases fields, 0
  {
    if |fields| > 0 {
      var key := keys.keys[kid];
      var (head, n) := EncryptNode(suite, draw, kid, key, next, fields[0].value);
      assert forall v :: v in Leaves(fields[0].value) ==> v in FieldLeaves(fields);
      NodeSeals(suite, draw, keys, kid, next, fields[0].value);
      FieldsSeal(suite, draw, keys, kid, n, fields[1..]);
      var (tail, m) := EncryptFields(suite, draw, kid, key, n, fields[1..]);
      var c := [Field(fields[0].key, head.value)] + tail.value;
      assert c[1..] == tail.value;
    }
  }

  lemma {:induction false} ItemsSeal(suite: Suite, draw: Draws, keys: Keys, kid: string, next: nat, items: seq<Value>)
    requires Lawful(suite) && FullDraws(draw) && kid in keys.keys && AesKey(keys.keys[kid])
    requires AllScalar(ItemLeaves(items))
    ensures var (c, n) := EncryptItems(suite, draw, kid, keys.keys[kid], next, items);
            c.Ok? && Sealed(suite, keys, kid, next, List(items), List(c.value), n)
    decreases items, 0
  {
    if |items| > 0 {
      var key := keys.keys[kid];
      var (head, n) := EncryptNode(suite, draw, kid, key, next, items[0]);
      assert forall v :: v in Leaves(items[0]) ==> v in ItemLeaves(items);
      NodeSeals(suite, draw, keys, kid, next, items[0]);
      ItemsSeal(suite, draw, keys, kid, n, items[1..]);
      var (tail, m) := EncryptItems(suite, draw, kid, key, n, items[1..]);
      var c := [head.value] + tail.value;
      assert c[1..] == tail.value;
    }
  }

  // ----- whole trees -----

  lemma {:induction false} NodeNeedsScalars(suite: Suite, draw: Draws, kid: string, key: Bytes, next: nat, v: Value)
    requires EncryptNode(suite, draw, kid, key, next, v).0.Ok?
    ensures AllScalar(Leaves(v))
    decreases v, 1
  {
    if v.Object? {
      FieldsNeedScalars(suite, draw, kid, key, next, v.fields);
    } else if v.List? {
      ItemsNeedScalars(suite, draw, kid, key, next, v.items);
    }
  }

  lemma {:induction false} FieldsNeedScalars(suite: Suite, draw: Draws, kid: string, key: Bytes, next: nat,
                                             fields: seq<Field>)
    requires EncryptFields(suite, draw, kid, key, next, fields).0.Ok?
    ensures AllScalar(FieldLeaves(fields))
    decreases fields, 0
  {
    if |fields| > 0 {
      NodeNeedsScalars(suite, draw, kid, key, next, fields[0].value);
      FieldsNeedScalars(suite, draw, kid, key,
                        EncryptNode(suite, draw, kid, key, next, fields[0].value).1, fields[1..]);
    }
  }

  lemma {:induction false} ItemsNeedScalars(suite: Suite, draw: Draws, kid: string, key: Bytes, next: nat,
                                            items: seq<Value>)
    requires EncryptItems(suite, draw, kid, key, next, items).0.Ok?
    ensures AllScalar(ItemLeaves(items))
    decreases items, 0
  {
    if |items| > 0 {
      NodeNeedsScalars(suite, draw, kid, key, next, items[0]);
      ItemsNeedScalars(suite, draw, kid, key, EncryptNode(suite, draw, kid, key, next, items[0]).1, items[1..]);
    }
  }

  /** With a working random source, `EncryptJSON` succeeds exactly when the kid is known, its key is
      an AES key and every leaf is a JSON scalar. Then the ciphertext has the shape of the payload
      and exactly `CountScalars` envelopes, each under its own nonce draw. */
  lemma EncryptionShape(suite: Suite, draw: Draws, keys: Keys, requested: string, next: nat, v: Value)
    requires Lawful(suite) && FullDraws(draw)
    ensures var kid := if requested == "" then keys.active else requested;
            var (c, after) := EncryptJSON(suite, draw, keys, requested, next, v);
            && (c.Ok? <==> kid in keys.keys && AesKey(keys.keys[kid]) && AllScalar(Leaves(v)))
            && (c.Ok? ==> SameShape(v, c.value) && CountScalars(c.value) == CountScalars(v)
                          && after == next + CountScalars(v)
                          && forall leaf :: leaf in Leaves(c.value) ==> IsEnvelope(leaf))
  {
    var kid := if requested == "" then keys.active else requested;
    if kid in keys.keys && AesKey(keys.keys[kid]) {
      if AllScalar(Leaves(v)) {
        NodeSeals(suite, draw, keys, kid, next, v);
      } else if EncryptNode(suite, draw, kid, keys.keys[kid], next, v).0.Ok? {
        NodeNeedsScalars(suite, draw, kid, keys.keys[kid], next, v);
      }
    }
  }

  /** Decrypting what was encrypted gives the payload back, with integers as float64. For a payload
      with any scalar in it that is so exactly when the kid is not empty and free of ':', CR and LF;
      any other kid makes every ciphertext unreadable. The opener may have another active kid. */
  lemma TreeRoundTrip(suite: Suite, draw: Draws, keys: Keys, opener: Keys, requested: string, next: nat, v: Value)
    requires Lawful(suite) && FullDraws(draw) && CountScalars(v) > 0
    requires EncryptJSON(suite, draw, keys, requested, next, v).0.Ok?
    requires var kid := if requested == "" then keys.active else requested;
             kid in opener.keys && kid in keys.keys && opener.keys[kid] == keys.keys[kid]
    ensures var kid := if requested == "" then keys.active else requested;
            DecryptJSON(suite, opener, EncryptJSON(suite, draw, keys, requested, next, v).0.value)
            == if CleanKid(kid) then Ok(Floated(suite, v)) else Err(InvalidEnvelope)
  {
    var kid := if requested == "" then keys.active else requested;
    NodeNeedsScalars(suite, draw, kid, keys.keys[kid], next, v);
    NodeSeals(suite, draw, opener, kid, next, v);
  }

  /** A tree as parsed from JSON text holds no Go integers. */
  predicate FromJson(leaves: seq<Value>) {
    forall v :: v in leaves ==> Scalar(v) && !v.Int?
  }

  lemma {:induction false} FloatedJson(suite: Suite, v: Value)
    requires FromJson(Leaves(v))
    ensures Floated(suite, v) == v
    decreases v, 1
  {
    if v.Object? {
      FloatedJsonFields(suite, v.fields);
    } else if v.List? {
      FloatedJsonItems(suite, v.items);
    } else {
      assert v in Leaves(v);
    }
  }

  lemma {:induction false} FloatedJsonFields(suite: Suite, fields: seq<Field>)
    requires FromJson(FieldLeaves(fields))
    ensures FloatedFields(suite, fields) == fields
    decreases fields, 0
  {
    if |fields| > 0 {
      assert forall v :: v in Leaves(fields[0].value) ==> v in FieldLeaves(fields);
      FloatedJson(suite, fields[0].value);
      FloatedJsonFields(suite, fields[1..]);
    }
  }

  lemma {:induction false} FloatedJsonItems(suite: Suite, items: seq<Value>)
    requires FromJson(ItemLeaves(items))
    ensures FloatedItems(suite, items) == items
    decreases items, 0
  {
    if |items| > 0 {
      assert forall v :: v in Leaves(items[0]) ==> v in ItemLeaves(items);
      FloatedJson(suite, items[0]);
      FloatedJsonItems(suite, items[1..]);
    }
  }

  /** Every JSON tree survives encryption and decryption unchanged under every usable kid. */
  lemma JsonRoundTrip(suite: Suite, draw: Draws, keys: Keys, requested: string, next: nat, v: Value)
    requires Lawful(suite) && FullDraws(draw) && FromJson(Leaves(v))
    requires var kid := if requested == "" then keys.active else requested;
             CleanKid(kid) && kid in keys.keys && AesKey(keys.keys[kid])
    ensures var (c, after) := EncryptJSON(suite, draw, keys, requested, next, v);
            c.Ok? && DecryptJSON(suite, keys, c.value) == Ok(v)
  {
    var kid := if requested == "" then keys.active else requested;
    NodeSeals(suite, draw, keys, kid, next, v);
    FloatedJson(suite, v);
  }

  // ----- the service -----

  class RandomSource {
    const draw: Draws
    var position: nat

    constructor (draw: Draws)
      ensures this.draw == draw && position == 0
    {
      this.draw := draw;
      position := 0;
    }

    method ReadNonce() returns (nonce: Option<Bytes>)
      modifies this
      ensures nonce == draw(old(position)) && position == old(position) + 1
    {
      nonce := draw(position);
      position := position + 1;
    }
  }

  method CountLeaves(payload: Value) returns (total: nat)
    ensures total == CountScalars(payload)
  {
    if payload.Object? {
      total := 0;
      for i := 0 to |payload.fields|
        invariant total + CountFields(payload.fields[i..]) == CountFields(payload.fields)
      {
        assert payload.fields[i..][1..] == payload.fields[i + 1..];
        var n := CountLeaves(payload.fields[i].value);
        total := total + n;
      }
    } else if payload.List? {
      total := 0;
      for i := 0 to |payload.items|
        invariant total + CountItems(payload.items[i..]) == CountItems(payload.items)
      {
        assert payload.items[i..][1..] == payload.items[i + 1..];
        var n := CountLeaves(payload.items[i]);
        total := total + n;
      }
    } else {
      total := 1;
    }
  }

  /** `out` in front of what the rest of a container encrypts to. */
  function After<T>(out: seq<T>, rest: (Result<seq<T>, CryptoError>, nat)): (Result<seq<T>, CryptoError>, nat) {
    (if rest.0.Ok? then Ok(out + rest.0.value) else rest.0, rest.1)
  }

  class FieldCryptoService {
    const suite: Suite
    const keys: Keys

    constructor (suite: Suite, keys: Keys)
      ensures this.suite == suite && this.keys == keys
    {
      this.suite, this.keys := suite, keys;
    }

    method EncryptTree(source: RandomSource, requested: string, payload: Value) returns (r: Result<Value, CryptoError>)
      modifies source
      ensures (r, source.position)
           == EncryptJSON(suite, source.draw, keys, requested, old(source.position), payload)
    {
      var kid := if requested == "" then keys.active else requested;
      var key := KeyFor(keys, kid);
      if key.Err? {
        return Err(key.error);
      }
      if !AesKey(key.value) {
        return Err(EncryptionFailed);
      }
      r := EncryptInto(source, kid, key.value, payload);
    }

    method EncryptInto(source: RandomSource, kid: string, key: Bytes, v: Value) returns (r: Result<Value, CryptoError>)
      modifies source
      ensures (r, source.position) == EncryptNode(suite, source.draw, kid, key, old(source.position), v)
      decreases v
    {
      if v.Object? {
        var fields := v.fields;
        var out: seq<Field> := [];
        ghost var whole := EncryptFields(suite, source.draw, kid, key, source.position, fields);
        assert fields[0..] == fields && (whole.0.Ok? ==> out + whole.0.value == whole.0.value);
        for i := 0 to |fields|
          invariant whole == After(out, EncryptFields(suite, source.draw, kid, key, source.position, fields[i..]))
        {
          assert fields[i..][1..] == fields[i + 1..];
          var encrypted := EncryptInto(source, kid, key, fields[i].value);
          if encrypted.Err? {
            return Err(encrypted.error);
          }
          ghost var rest := EncryptFields(suite, source.draw, kid, key, source.position, fields[i + 1..]);
          ghost var one := [Field(fields[i].key, encrypted.value)];
          Associative(out, one, if rest.0.Ok? then rest.0.value else []);
          out := out + [Field(fields[i].key, encrypted.value)];
        }
        assert out + [] == out;
        return Ok(Object(out));
      } else if v.List? {
        var items := v.items;
        var out: seq<Value> := [];
        ghost var whole := EncryptItems(suite, source.draw, kid, key, source.position, items);
        assert items[0..] == items && (whole.0.Ok? ==> out + whole.0.value == whole.0.value);
        for i := 0 to |items|
          invariant whole == After(out, EncryptItems(suite, source.draw, kid, key, source.position, items[i..]))
        {
          assert items[i..][1..] == items[i + 1..];
          var encrypted := EncryptInto(source, kid, key, items[i]);
          if encrypted.Err? {
            return Err(encrypted.error);
          }
          ghost var rest := EncryptItems(suite, source.draw, kid, key, source.position, items[i + 1..]);
          Associative(out, [encrypted.value], if rest.0.Ok? then rest.0.value else []);
          out := out + [encrypted.value];
        }
        assert out + [] == out;
        return Ok(List(out));
      } else {
        var nonce := source.ReadNonce();
        if nonce == None {
          return Err(EncryptionFailed);
        }
        return EncryptLeaf(suite, kid, key, nonce.value, v);
      }
    }

    method DecryptTree(v: Value) returns (r: Result<Value, CryptoError>)
      ensures r == DecryptJSON(suite, keys, v)
      decreases v
    {
      if v.Object? {
        var fields := v.fields;
        var out: seq<Field> := [];
        ghost var whole := DecryptFields(suite, keys, fields);
        assert fields[0..] == fields && (whole.Ok? ==> out + whole.value == whole.value);
        for i := 0 to |fields|
          invariant var rest := DecryptFields(suite, keys, fields[i..]);
                    whole == if rest.Ok? then Ok(out + rest.value) else rest
        {
          assert fields[i..][1..] == fields[i + 1..];
          var decrypted := DecryptTree(fields[i].value);
          if decrypted.Err? {
            return Err(decrypted.error);
          }
          ghost var rest := DecryptFields(suite, keys, fields[i + 1..]);
          ghost var one := [Field(fields[i].key, decrypted.value)];
          Associative(out, one, if rest.Ok? then rest.value else []);
          out := out + [Field(fields[i].key, decrypted.value)];
        }
        assert out + [] == out;
        return Ok(Object(out));
      } else if v.List? {
        var items := v.items;
        var out: seq<Value> := [];
        ghost var whole := DecryptItems(suite, keys, items);
        assert items[0..] == items && (whole.Ok? ==> out + whole.value == whole.value);
        for i := 0 to |items|
          invariant var rest := DecryptItems(suite, keys, items[i..]);
                    whole == if rest.Ok? then Ok(out + rest.value) else rest
        {
          assert items[i..][1..] == items[i + 1..];
          var decrypted := DecryptTree(items[i]);
          if decrypted.Err? {
            return Err(decrypted.error);
          }
          ghost var rest := DecryptItems(suite, keys, items[i + 1..]);
          Associative(out, [decrypted.value], if rest.Ok? then rest.value else []);
          out := out + [decrypted.value];
        }
        assert out + [] == out;
        return Ok(List(out));
      } else {
        return DecryptLeaf(suite, keys, v);
      }
    }
  }

  // ----- decryption is all or nothing -----

  ghost predicate AllOpen(suite: Suite, keys: Keys, leaves: seq<Value>) {
    forall v :: v in leaves ==> DecryptLeaf(suite, keys, v).Ok?
  }

  /** The decrypted leaves, in place. */
  ghost predicate OpenedTo(suite: Suite, keys: Keys, leaves: seq<Value>, results: seq<Value>) {
    |leaves| == |results| && forall i :: 0 <= i < |leaves| ==> DecryptLeaf(suite, keys, leaves[i]) == Ok(results[i])
  }

  lemma MapsAppend(f: Value -> Result<Value, CryptoError>, a: seq<Value>, b: seq<Value>, x: seq<Value>, y: seq<Value>)
    requires |a| == |x| && forall i :: 0 <= i < |a| ==> f(a[i]) == Ok(x[i])
    requires |b| == |y| && forall i :: 0 <= i < |b| ==> f(b[i]) == Ok(y[i])
    ensures forall i :: 0 <= i < |a + b| ==> f((a + b)[i]) == Ok((x + y)[i])
  {
  }

  lemma OpenedAppend(suite: Suite, keys: Keys, a: seq<Value>, b: seq<Value>, x: seq<Value>, y: seq<Value>)
    requires OpenedTo(suite, keys, a, x) && OpenedTo(suite, keys, b, y)
    ensures OpenedTo(suite, keys, a + b, x + y)
  {
    var f := (v: Value) => DecryptLeaf(suite, keys, v);
    MapsAppend(f, a, b, x, y);
    forall i | 0 <= i < |a + b| ensures DecryptLeaf(suite, keys, (a + b)[i]) == Ok((x + y)[i]) {
      assert f((a + b)[i]) == Ok((x + y)[i]);
    }
  }

  /** The first leaf that does not open gives the error. */
  ghost predicate FirstFails(suite: Suite, keys: Keys, leaves: seq<Value>, e: CryptoError) {
    exists k :: 0 <= k < |leaves| && DecryptLeaf(suite, keys, leaves[k]) == Err(e)
                && forall i :: 0 <= i < k ==> DecryptLeaf(suite, keys, leaves[i]).Ok?
  }

  lemma FailsFirst(suite: Suite, keys: Keys, a: seq<Value>, b: seq<Value>, e: CryptoError)
    requires FirstFails(suite, keys, a, e)
    ensures FirstFails(suite, keys, a + b, e)
  {
    var k :| 0 <= k < |a| && DecryptLeaf(suite, keys, a[k]) == Err(e)
             && forall i :: 0 <= i < k ==> DecryptLeaf(suite, keys, a[i]).Ok?;
    assert (a + b)[k] == a[k] && forall i :: 0 <= i < k ==> (a + b)[i] == a[i];
  }

  lemma FailsLater(suite: Suite, keys: Keys, a: seq<Value>, b: seq<Value>, e: CryptoError)
    requires AllOpen(suite, keys, a) && FirstFails(suite, keys, b, e)
    ensures FirstFails(suite, keys, a + b, e)
  {
    var k :| 0 <= k < |b| && DecryptLeaf(suite, keys, b[k]) == Err(e)
             && forall i :: 0 <= i < k ==> DecryptLeaf(suite, keys, b[i]).Ok?;
    assert (a + b)[|a| + k] == b[k];
    forall i | 0 <= i < |a| + k ensures DecryptLeaf(suite, keys, (a + b)[i]).Ok? {
      AppendAt(a, b, i);
      assert i < |a| ==> a[i] in a;
    }
  }

  lemma DecodedIsScalar(suite: Suite, raw: Bytes)
    requires DecodeValue(suite, raw).Ok?
    ensures Scalar(DecodeValue(suite, raw).value)
  {
  }

  lemma OpenedLeafIsScalar(suite: Suite, keys: Keys, v: Value)
    requires DecryptLeaf(suite, keys, v).Ok?
    ensures Leaves(DecryptLeaf(suite, keys, v).value) == [DecryptLeaf(suite, keys, v).value]
    ensures SameShape(v, DecryptLeaf(suite, keys, v).value)
  {
    var e := ParseEnvelope(v).value;
    DecodedIsScalar(suite, suite.open(KeyFor(keys, e.kid).value, e.nonce, e.ciphertext + e.tag, Aad(e.kid)).value);
  }

  /** A tree decrypts exactly when every scalar leaf, at whatever depth, parses as an envelope and
      opens; then the result has the same shape and each leaf is replaced by what it opened to. Otherwise the
      error is that of the first leaf, left to right, that does not open. */
  lemma {:induction false} DecryptionIsLeafwise(suite: Suite, keys: Keys, v: Value)
    ensures var d := DecryptJSON(suite, keys, v);
            && (d.Ok? <==> AllOpen(suite, keys, Leaves(v)))
            && (d.Ok? ==> SameShape(v, d.value) && OpenedTo(suite, keys, Leaves(v), Leaves(d.value)))
            && (d.Err? ==> FirstFails(suite, keys, Leaves(v), d.error))
    decreases v, 1
  {
    if v.Object? {
      FieldsDecryptLeafwise(suite, keys, v.fields);
    } else if v.List? {
      ItemsDecryptLeafwise(suite, keys, v.items);
    } else {
      assert Leaves(v) == [v];
      if DecryptLeaf(suite, keys, v).Ok? {
        OpenedLeafIsScalar(suite, keys, v);
      }
    }
  }

  lemma {:induction false} FieldsDecryptLeafwise(suite: Suite, keys: Keys, fields: seq<Field>)
    ensures var d := DecryptFields(suite, keys, fields);
            && (d.Ok? <==> AllOpen(suite, keys, FieldLeaves(fields)))
            && (d.Ok? ==> SameFields(fields, d.value)
                          && OpenedTo(suite, keys, FieldLeaves(fields), FieldLeaves(d.value)))
            && (d.Err? ==> FirstFails(suite, keys, FieldLeaves(fields), d.error))
    decreases fields, 0
  {
    if |fields| > 0 {
      var head, tail := DecryptJSON(suite, keys, fields[0].value), DecryptFields(suite, keys, fields[1..]);
      DecryptionIsLeafwise(suite, keys, fields[0].value);
      FieldsDecryptLeafwise(suite, keys, fields[1..]);
      if head.Ok? && tail.Ok? {
        var d := [Field(fields[0].key, head.value)] + tail.value;
        assert d[1..] == tail.value;
        OpenedAppend(suite, keys, Leaves(fields[0].value), FieldLeaves(fields[1..]),
                     Leaves(head.value), FieldLeaves(tail.value));
      } else if head.Err? {
        FailsFirst(suite, keys, Leaves(fields[0].value), FieldLeaves(fields[1..]), head.error);
      } else {
        FailsLater(suite, keys, Leaves(fields[0].value), FieldLeaves(fields[1..]), tail.error);
      }
    }
  }

  lemma {:induction false} ItemsDecryptLeafwise(suite: Suite, keys: Keys, items: seq<Value>)
    ensures var d := DecryptItems(suite, keys, items);
            && (d.Ok? <==> AllOpen(suite, keys, ItemLeaves(items)))
            && (d.Ok? ==> SameItems(items, d.value) && OpenedTo(suite, keys, ItemLeaves(items), ItemLeaves(d.value)))
            && (d.Err? ==> FirstFails(suite, keys, ItemLeaves(items), d.error))
    decreases items, 0
  {
    if |items| > 0 {
      var head, tail := DecryptJSON(suite, keys, items[0]), DecryptItems(suite, keys, items[1..]);
      DecryptionIsLeafwise(suite, keys, items[0]);
      ItemsDecryptLeafwise(suite, keys, items[1..]);
      if head.Ok? && tail.Ok? {
        var d := [head.value] + tail.value;
        assert d[1..] == tail.value;
        OpenedAppend(suite, keys, Leaves(items[0]), ItemLeaves(items[1..]), Leaves(head.value), ItemLeaves(tail.value));
      } else if head.Err? {
        FailsFirst(suite, keys, Leaves(items[0]), ItemLeaves(items[1..]), head.error);
      } else {
        FailsLater(suite, keys, Leaves(items[0]), ItemLeaves(items[1..]), tail.error);
      }
    }
  }
}
