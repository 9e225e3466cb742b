/** Dynamic values, the Go `any` that JSON payloads travel in. */
module Values {
  import opened Text

  /** m / 2^scale in lowest terms. Every finite float64 is one such number. */
  datatype Fraction = Fraction(m: int, scale: nat)

  type Float64 = f: Fraction | f.scale == 0 || f.m % 2 != 0 witness Fraction(0, 0)

  /** A map is listed in the order in which one iteration visits it, each key once.
      `Strings` is a `[]string`, which no type switch on `[]any` recognises. */
  datatype Value =
    | Nil
    | Bool(b: bool)
    | Float(f: Float64)
    | Int(i: int)
    | Str(s: string)
    | List(items: seq<Value>)
    | Strings(texts: seq<string>)
    | Object(fields: seq<Field>)

  datatype Field = Field(key: string, value: Value)

  function Lookup(fields: seq<Field>, key: string): Option<Value> {
    if |fields| == 0 then None
    else if fields[0].key == key then Some(fields[0].value)
    else Lookup(fields[1..], key)
  }

  /** Go's `/`, which rounds toward zero. */
  function Quotient(a: int, b: int): int
    requires b > 0
  {
    if a < 0 then -((-a) / b) else a / b
  }

  function PowerOfTwo(n: nat): (p: nat)
    ensures p > 0
  {
    if n == 0 then 1 else 2 * PowerOfTwo(n - 1)
  }

  /** `int(f)`. */
  function Truncated(f: Float64): int {
    Quotient(f.m, PowerOfTwo(f.scale))
  }

  /** A field read by a type switch over the number types; zero when it is anything else. */
  function NumberField(fields: seq<Field>, key: string): int {
    var v := Lookup(fields, key);
    if v == None then 0
    else if v.value.Int? then v.value.i
    else if v.value.Float? then Truncated(v.value.f)
    else 0
  }

  lemma Divided(m: nat, p: nat)
    requires p > 0
    ensures m / p >= 0 && m / p * p <= m < m / p * p + p
  {
    assert m == m / p * p + m % p;
  }

  lemma NegatedProduct(q: int, p: int, product: int)
    requires q * p == product
    ensures (-q) * p == -product
  {
  }

  /** `n` times `p` is `a`, or falls short of it by less than `p`, on the side of zero. */
  predicate TruncatedQuotient(a: int, p: int, n: int, product: int) {
    product == n * p && if a < 0 then n <= 0 && product - p < a <= product else n >= 0 && product <= a < product + p
  }

  lemma QuotientExactly(a: int, p: int)
    requires p > 0
    ensures TruncatedQuotient(a, p, Quotient(a, p), Quotient(a, p) * p)
  {
    if a < 0 {
      Divided(-a, p);
      NegatedProduct((-a) / p, p, (-a) / p * p);
    } else {
      Divided(a, p);
    }
  }

  /** The whole number next to the fraction on the side of zero. */
  lemma TruncatedExactly(f: Float64)
    ensures var n, p := Truncated(f), PowerOfTwo(f.scale); TruncatedQuotient(f.m, p, n, n * p)
  {
    QuotientExactly(f.m, PowerOfTwo(f.scale));
  }

  /** What `NumberField` reads. */
  lemma NumberFieldExactly(fields: seq<Field>, key: string)
    ensures forall i :: Lookup(fields, key) == Some(Int(i)) ==> NumberField(fields, key) == i
    ensures forall f :: Lookup(fields, key) == Some(Float(f)) ==> NumberField(fields, key) == Truncated(f)
    ensures (forall i :: Lookup(fields, key) != Some(Int(i))) && (forall f :: Lookup(fields, key) != Some(Float(f)))
            ==> NumberField(fields, key) == 0
  {
    var v := Lookup(fields, key);
    if v.Some? && v.value.Int? {
      assert v == Some(Int(v.value.i));
    } else if v.Some? && v.value.Float? {
      assert v == Some(Float(v.value.f));
    }
  }
}
