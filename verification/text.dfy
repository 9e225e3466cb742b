/** Strings as the service handles them: trimming, case folding, decimal numbers,
    and the separator-joined keys every cache, token and envelope is built from. */
module Text {

  datatype Option<+T> = None | Some(value: T)

  datatype Result<+T, +E> = Ok(value: T) | Err(error: E)

  lemma Associative<T>(a: seq<T>, b: seq<T>, c: seq<T>)
    ensures (a + b) + c == a + (b + c)
  {
  }

  lemma AppendAt<T>(a: seq<T>, b: seq<T>, i: nat)
    requires i < |a| + |b|
    ensures (a + b)[i] == if i < |a| then a[i] else b[i - |a|]
  {
  }

  // ----- trimming and case -----

  predicate IsSpace(c: char) {
    || c == ' ' || '\t' <= c <= '\r' || c == '\U{85}' || c == '\U{A0}' || c == '\U{1680}'
    || '\U{2000}' <= c <= '\U{200A}' || c == '\U{2028}' || c == '\U{2029}' || c == '\U{202F}'
    || c == '\U{205F}' || c == '\U{3000}'
  }

  function TrimLeft(s: string): string {
    if |s| > 0 && IsSpace(s[0]) then TrimLeft(s[1..]) else s
  }

  function TrimRight(s: string): string {
    if |s| > 0 && IsSpace(s[|s| - 1]) then TrimRight(s[..|s| - 1]) else s
  }

  function TrimSpace(s: string): string {
    TrimRight(TrimLeft(s))
  }

  function LowerChar(c: char): char {
    if 'A' <= c <= 'Z' then (c as int + 32) as char else c
  }

  function ToLower(s: string): string {
    seq(|s|, i requires 0 <= i < |s| => LowerChar(s[i]))
  }

  predicate Trimmed(s: string) {
    |s| > 0 ==> !IsSpace(s[0]) && !IsSpace(s[|s| - 1])
  }

  lemma {:induction false} TrimRightKeepsFront(s: string)
    ensures TrimRight(s) <= s
    ensures |TrimRight(s)| > 0 ==> !IsSpace(TrimRight(s)[|TrimRight(s)| - 1])
  {
    if |s| > 0 && IsSpace(s[|s| - 1]) {
      TrimRightKeepsFront(s[..|s| - 1]);
    }
  }

  lemma {:induction false} TrimLeftStart(s: string)
    ensures |TrimLeft(s)| > 0 ==> !IsSpace(TrimLeft(s)[0])
    ensures forall c :: c in TrimLeft(s) ==> c in s
  {
    if |s| > 0 && IsSpace(s[0]) {
      TrimLeftStart(s[1..]);
    }
  }

  /** Trimming leaves neither a leading nor a trailing space, invents no character,
      and does nothing the second time. */
  lemma TrimSpaceTrims(s: string)
    ensures Trimmed(TrimSpace(s))
    ensures forall c :: c in TrimSpace(s) ==> c in s
    ensures TrimSpace(TrimSpace(s)) == TrimSpace(s)
  {
    TrimLeftStart(s);
    TrimRightKeepsFront(TrimLeft(s));
    var t := TrimSpace(s);
    forall c | c in t ensures c in s {
      assert t <= TrimLeft(s);
      var i :| 0 <= i < |t| && t[i] == c;
      assert TrimLeft(s)[i] == c;
    }
    if |t| > 0 {
      assert t[0] == TrimLeft(s)[0];
    }
  }

  lemma TrimmedStays(s: string)
    requires Trimmed(s)
    ensures TrimSpace(s) == s
  {
  }

  /** The same character, or the two cases of one letter. */
  predicate SameLetter(c: char, d: char) {
    || c == d
    || ('A' <= c <= 'Z' && d as int == c as int + 32) || ('A' <= d <= 'Z' && c as int == d as int + 32)
  }

  /** Texts agree in lower case exactly when they agree up to the case of their letters; none is left in upper case. */
  lemma LowerExactly(s: string, t: string)
    ensures ToLower(s) == ToLower(t) <==> |s| == |t| && forall i :: 0 <= i < |s| ==> SameLetter(s[i], t[i])
    ensures forall c :: c in ToLower(s) ==> !('A' <= c <= 'Z')
  {
    forall i | 0 <= i < |s| && i < |t| ensures LowerChar(s[i]) == LowerChar(t[i]) <==> SameLetter(s[i], t[i]) { }
    if ToLower(s) == ToLower(t) {
      assert |ToLower(s)| == |ToLower(t)|;
      forall i | 0 <= i < |s| ensures SameLetter(s[i], t[i]) { assert ToLower(s)[i] == ToLower(t)[i]; }
    }
  }

  predicate Blank(s: string) {
    forall c :: c in s ==> IsSpace(c)
  }

  lemma {:induction false} TrimLeftOver(l: string, s: string)
    requires Blank(l)
    ensures TrimLeft(l + s) == TrimLeft(s)
  {
    if |l| == 0 {
      assert l + s == s;
    } else {
      assert l[0] in l && (l + s)[1..] == l[1..] + s;
      TrimLeftOver(l[1..], s);
    }
  }

  lemma {:induction false} TrimRightOver(s: string, r: string)
    requires Blank(r)
    ensures TrimRight(s + r) == TrimRight(s)
  {
    if |r| == 0 {
      assert s + r == s;
    } else {
      var whole := s + r;
      assert r[|r| - 1] in r && whole[..|whole| - 1] == s + r[..|r| - 1];
      TrimRightOver(s, r[..|r| - 1]);
    }
  }

  /** What is in the middle of two blank texts stays when both of its ends are no spaces. */
  lemma TrimmedMiddle(l: string, t: string, r: string)
    requires Blank(l) && Blank(r) && Trimmed(t)
    ensures TrimSpace(l + t + r) == t
  {
    Associative(l, t, r);
    TrimLeftOver(l, t + r);
    if t == "" {
      TrimLeftOver(r, "");
      assert r + "" == r && t + r == r;
    } else {
      assert TrimLeft(t + r) == t + r;
      TrimRightOver(t, r);
    }
  }

  lemma {:induction false} LeftCut(s: string) returns (l: string)
    ensures Blank(l) && s == l + TrimLeft(s)
  {
    l := "";
    if |s| > 0 && IsSpace(s[0]) {
      var rest := LeftCut(s[1..]);
      l := [s[0]] + rest;
      assert s == [s[0]] + s[1..];
    }
  }

  lemma {:induction false} RightCut(s: string) returns (r: string)
    ensures Blank(r) && s == TrimRight(s) + r
  {
    r := "";
    if |s| > 0 && IsSpace(s[|s| - 1]) {
      var rest := RightCut(s[..|s| - 1]);
      r := rest + [s[|s| - 1]];
      assert s == s[..|s| - 1] + [s[|s| - 1]];
    }
  }

  /** The trimmed text is what is left between two blank ends. */
  lemma TrimSpaceExactly(s: string, t: string)
    ensures TrimSpace(s) == t <==> Trimmed(t) && exists l, r :: Blank(l) && Blank(r) && s == l + t + r
  {
    if TrimSpace(s) == t {
      TrimSpaceTrims(s);
      var l := LeftCut(s);
      var r := RightCut(TrimLeft(s));
      assert s == l + t + r;
    } else if Trimmed(t) {
      forall l, r | Blank(l) && Blank(r) ensures s != l + t + r {
        TrimmedMiddle(l, t, r);
      }
    }
  }

  lemma BlankIsEmpty(s: string)
    ensures TrimSpace(s) == "" <==> Blank(s)
  {
    if Blank(s) {
      TrimmedMiddle(s, "", "");
      assert s + "" + "" == s;
    } else if TrimSpace(s) == "" {
      TrimSpaceExactly(s, "");
    }
  }

  // ----- decimal numbers -----

  predicate IsDigit(c: char) { '0' <= c <= '9' }

  function DigitChar(d: nat): char
    requires d < 10
  {
    ('0' as int + d) as char
  }

  function Digits(n: nat): string {
    if n < 10 then [DigitChar(n)] else Digits(n / 10) + [DigitChar(n % 10)]
  }

  /** `%d`, and `strconv.Itoa`. */
  function Decimal(i: int): string {
    if i < 0 then "-" + Digits(-i) else Digits(i)
  }

  function DigitsValue(s: string): nat
    requires forall c :: c in s ==> IsDigit(c)
  {
    if |s| == 0 then 0
    else
      assert IsDigit(s[|s| - 1]);
      DigitsValue(s[..|s| - 1]) * 10 + (s[|s| - 1] as int - '0' as int)
  }

  const MAX_INT64 := 0x7FFF_FFFF_FFFF_FFFF

  predicate IsInt64(i: int) {
    -MAX_INT64 - 1 <= i <= MAX_INT64
  }

  /** `strconv.Atoi` on a 64-bit platform: an optional sign, at least one digit, in range. */
  function Atoi(s: string): Option<int> {
    var negative := |s| > 0 && s[0] == '-';
    var body := if |s| > 0 && (s[0] == '-' || s[0] == '+') then s[1..] else s;
    if |body| == 0 || exists c :: c in body && !IsDigit(c) then None
    else
      var v: int := if negative then -(DigitsValue(body) as int) else DigitsValue(body);
      if IsInt64(v) then Some(v) else None
  }

  lemma {:induction false} DigitsRoundTrip(n: nat)
    ensures |Digits(n)| > 0
    ensures forall c :: c in Digits(n) ==> IsDigit(c)
    ensures DigitsValue(Digits(n)) == n
  {
    if n >= 10 {
      DigitsRoundTrip(n / 10);
      var s := Digits(n);
      assert s[..|s| - 1] == Digits(n / 10);
    } else {
      assert Digits(n)[..0] == "";
    }
  }

  /** Printing a number loses nothing, and prints only digits and a sign. */
  lemma DecimalInjective(i: int, j: int)
    requires Decimal(i) == Decimal(j)
    ensures i == j
  {
    DigitsRoundTrip(if i < 0 then -i else i);
    DigitsRoundTrip(if j < 0 then -j else j);
    if i < 0 && j < 0 {
      assert Decimal(i)[1..] == Digits(-i) && Decimal(j)[1..] == Digits(-j);
    } else {
      assert i >= 0 ==> IsDigit(Decimal(i)[0]);
      assert j >= 0 ==> IsDigit(Decimal(j)[0]);
    }
  }

  lemma DecimalChars(i: int)
    ensures |Decimal(i)| > 0
    ensures forall c :: c in Decimal(i) ==> IsDigit(c) || c == '-'
  {
    DigitsRoundTrip(if i < 0 then -i else i);
  }

  lemma AtoiDecimal(i: int)
    requires IsInt64(i)
    ensures Atoi(Decimal(i)) == Some(i)
  {
    DigitsRoundTrip(if i < 0 then -i else i);
    if i < 0 {
      assert Decimal(i)[1..] == Digits(-i);
    } else {
      assert IsDigit(Decimal(i)[0]);
    }
  }

  /** A printed number is read with either sign or none. */
  lemma AtoiSigned(n: nat)
    requires n <= MAX_INT64
    ensures Atoi(Digits(n)) == Some(n) && Atoi("+" + Digits(n)) == Some(n) && Atoi("-" + Digits(n)) == Some(-(n as int))
  {
    DigitsRoundTrip(n);
    assert ("+" + Digits(n))[1..] == Digits(n) && ("-" + Digits(n))[1..] == Digits(n);
    assert IsDigit(Digits(n)[0]);
  }

  // ----- joining and splitting -----

  function Join(parts: seq<string>, sep: char): string {
    if |parts| == 0 then ""
    else if |parts| == 1 then parts[0]
    else parts[0] + [sep] + Join(parts[1..], sep)
  }

  function IndexOf(s: string, c: char): (i: nat)
    requires c in s
    ensures i < |s| && s[i] == c && c !in s[..i]
  {
    if s[0] == c then 0
    else
      assert s == [s[0]] + s[1..];
      var j := IndexOf(s[1..], c);
      assert s[..j + 1] == [s[0]] + s[1..][..j];
      j + 1
  }

  function Split(s: string, sep: char): (parts: seq<string>)
    ensures |parts| > 0
    ensures forall p :: p in parts ==> sep !in p
  {
    if sep !in s then [s]
    else
      var i := IndexOf(s, sep);
      [s[..i]] + Split(s[i + 1..], sep)
  }

  lemma {:induction false} IndexOfUnique(s: string, c: char, i: nat)
    requires i < |s| && s[i] == c && c !in s[..i]
    ensures c in s && IndexOf(s, c) == i
  {
    if i > 0 {
      assert s[..i][0] == s[0];
      assert s[1..][..i - 1] == s[..i][1..];
      IndexOfUnique(s[1..], c, i - 1);
    }
  }

  /** What one `Split` step sees at the front of a joined string. */
  lemma SplitStep(head: string, rest: string, sep: char)
    requires sep !in head
    ensures Split(head + [sep] + rest, sep) == [head] + Split(rest, sep)
  {
    var s := head + [sep] + rest;
    assert s[..|head|] == head && s[|head|] == sep && s[|head| + 1..] == rest;
    IndexOfUnique(s, sep, |head|);
  }

  /** Splitting undoes joining when no part contains the separator. */
  lemma {:induction false} SplitJoin(parts: seq<string>, sep: char)
    requires |parts| > 0
    requires forall p :: p in parts ==> sep !in p
    ensures Split(Join(parts, sep), sep) == parts
  {
    if |parts| > 1 {
      SplitJoin(parts[1..], sep);
      SplitStep(parts[0], Join(parts[1..], sep), sep);
      assert parts == [parts[0]] + parts[1..];
    }
  }

  /** Joining undoes splitting, for every string. */
  lemma {:induction false} JoinSplit(s: string, sep: char)
    ensures Join(Split(s, sep), sep) == s
    decreases |s|
  {
    if sep in s {
      var i := IndexOf(s, sep);
      JoinSplit(s[i + 1..], sep);
      var parts := Split(s, sep);
      assert parts[1..] == Split(s[i + 1..], sep);
      assert s == s[..i] + [sep] + s[i + 1..];
    }
  }

  predicate Free(sep: char, parts: seq<string>) {
    forall p :: p in parts ==> sep !in p
  }

  /** A joined key determines its parts, so long as none of them holds the separator. */
  lemma JoinInjective(a: seq<string>, b: seq<string>, sep: char)
    requires |a| > 0 && |b| > 0 && Free(sep, a) && Free(sep, b)
    requires Join(a, sep) == Join(b, sep)
    ensures a == b
  {
    SplitJoin(a, sep);
    SplitJoin(b, sep);
  }
}
