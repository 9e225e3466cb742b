/** What a joined text determines about its parts when some of them hold the separator. */
module Joining {
  import opened Text

  // ----- counting separators -----

  function Count(s: string, sep: char): nat {
    if |s| == 0 then 0 else (if s[0] == sep then 1 else 0) + Count(s[1..], sep)
  }

  lemma {:induction false} CountAppend(a: string, b: string, sep: char)
    ensures Count(a + b, sep) == Count(a, sep) + Count(b, sep)
  {
    if |a| == 0 {
      assert a + b == b;
    } else {
      assert (a + b)[1..] == a[1..] + b;
      CountAppend(a[1..], b, sep);
    }
  }

  lemma {:induction false} CountZero(s: string, sep: char)
    ensures Count(s, sep) == 0 <==> sep !in s
  {
    if |s| > 0 {
      CountZero(s[1..], sep);
      assert s == [s[0]] + s[1..];
    }
  }

  lemma {:induction false} CountOfJoin(parts: seq<string>, i: nat, sep: char)
    requires i < |parts|
    ensures Count(Join(parts, sep), sep) >= |parts| - 1 + Count(parts[i], sep)
  {
    if |parts| > 1 {
      CountOfJoin(parts[1..], if i == 0 then 0 else i - 1, sep);
      CountAppend(parts[0], [sep], sep);
      CountAppend(parts[0] + [sep], Join(parts[1..], sep), sep);
      assert Count([sep], sep) == 1;
    }
  }

  lemma {:induction false} PiecesOfSplit(s: string, sep: char)
    ensures |Split(s, sep)| == Count(s, sep) + 1
    decreases |s|
  {
    CountZero(s, sep);
    if sep in s {
      var i := IndexOf(s, sep);
      PiecesOfSplit(s[i + 1..], sep);
      CountZero(s[..i], sep);
      CountAppend(s[..i], [sep], sep);
      CountAppend(s[..i] + [sep], s[i + 1..], sep);
      assert s == s[..i] + [sep] + s[i + 1..];
      assert Count([sep], sep) == 1;
    }
  }

  /** Among lists of one length, a list without the separator is the only one with its joined text. */
  lemma JoinDetermines(a: seq<string>, b: seq<string>, sep: char)
    requires |a| == |b| > 0 && Free(sep, a) && Join(a, sep) == Join(b, sep)
    ensures a == b
  {
    SplitJoin(a, sep);
    PiecesOfSplit(Join(a, sep), sep);
    forall p | p in b ensures sep !in p {
      var i :| 0 <= i < |b| && b[i] == p;
      CountOfJoin(b, i, sep);
      CountZero(p, sep);
    }
    JoinInjective(a, b, sep);
  }

  // ----- taking away common parts -----

  lemma {:induction false} JoinAppend(a: seq<string>, b: seq<string>, sep: char)
    requires |a| > 0 && |b| > 0
    ensures Join(a + b, sep) == Join(a, sep) + ([sep] + Join(b, sep))
  {
    assert (a + b)[1..] == a[1..] + b;
    if |a| > 1 {
      JoinAppend(a[1..], b, sep);
      Associative(a[0] + [sep], Join(a[1..], sep), [sep] + Join(b, sep));
    } else {
      assert a[1..] + b == b;
    }
  }

  lemma CancelFront(x: string, a: string, b: string)
    ensures x + a == x + b <==> a == b
  {
    assert (x + a)[|x|..] == a && (x + b)[|x|..] == b;
  }

  lemma CancelBack(a: string, b: string, x: string)
    ensures a + x == b + x <==> a == b
  {
    if a + x == b + x {
      assert |a| == |b|;
      assert (a + x)[..|a|] == a && (b + x)[..|b|] == b;
    }
  }

  lemma JoinFront(front: seq<string>, a: seq<string>, b: seq<string>, sep: char)
    requires |a| > 0 && |b| > 0
    ensures Join(front + a, sep) == Join(front + b, sep) <==> Join(a, sep) == Join(b, sep)
  {
    if |front| == 0 {
      assert front + a == a && front + b == b;
    } else {
      JoinAppend(front, a, sep);
      JoinAppend(front, b, sep);
      CancelFront(Join(front, sep), [sep] + Join(a, sep), [sep] + Join(b, sep));
      CancelFront([sep], Join(a, sep), Join(b, sep));
    }
  }

  lemma JoinBack(a: seq<string>, b: seq<string>, back: seq<string>, sep: char)
    requires |a| > 0 && |b| > 0
    ensures Join(a + back, sep) == Join(b + back, sep) <==> Join(a, sep) == Join(b, sep)
  {
    if |back| == 0 {
      assert a + back == a && b + back == b;
    } else {
      JoinAppend(a, back, sep);
      JoinAppend(b, back, sep);
      CancelBack(Join(a, sep), Join(b, sep), [sep] + Join(back, sep));
    }
  }

  /** Between equal parts, two lists join alike exactly when what differs does. */
  lemma JoinMiddle(front: seq<string>, a: seq<string>, b: seq<string>, back: seq<string>, sep: char)
    requires |a| > 0 && |b| > 0
    ensures Join(front + a + back, sep) == Join(front + b + back, sep) <==> Join(a, sep) == Join(b, sep)
  {
    JoinBack(front + a, front + b, back, sep);
    JoinFront(front, a, b, sep);
  }

  /** A text is cut at its first separator in one way only. */
  lemma CutOnce(x: string, a: string, y: string, b: string, sep: char)
    requires sep !in x && sep !in y && x + [sep] + a == y + [sep] + b
    ensures x == y && a == b
  {
    var text := x + [sep] + a;
    assert text[|x|] == sep && text[..|x|] == x && text[|x| + 1..] == a;
    assert text[|y|] == sep && text[..|y|] == y && text[|y| + 1..] == b;
    IndexOfUnique(text, sep, |x|);
    IndexOfUnique(text, sep, |y|);
  }

  // ----- two trimmed texts around a separator -----

  function Pair(x: string, sep: string, y: string): string {
    TrimSpace(x) + sep + TrimSpace(y)
  }

  /** The separator stands at `i`, with trimmed text on either side. */
  predicate CutAt(text: string, sep: string, i: nat) {
    && i + |sep| <= |text| && text[i..i + |sep|] == sep
    && TrimSpace(text[..i]) == text[..i] && TrimSpace(text[i + |sep|..]) == text[i + |sep|..]
  }

  lemma OwnCut(x: string, sep: string, y: string)
    ensures var text, i := Pair(x, sep, y), |TrimSpace(x)|;
            CutAt(text, sep, i) && text[..i] == TrimSpace(x) && text[i + |sep|..] == TrimSpace(y)
  {
    TrimSpaceTrims(x);
    TrimSpaceTrims(y);
    var text, i := Pair(x, sep, y), |TrimSpace(x)|;
    assert text[..i] == TrimSpace(x) && text[i..i + |sep|] == sep && text[i + |sep|..] == TrimSpace(y);
  }

  lemma CutMakes(text: string, sep: string, i: nat)
    requires CutAt(text, sep, i)
    ensures Pair(text[..i], sep, text[i + |sep|..]) == text
  {
    assert text == text[..i] + text[i..i + |sep|] + text[i + |sep|..];
  }

  /** `x` and `y` are the only way to read the text they make. */
  ghost predicate OneCut(x: string, sep: string, y: string) {
    forall i: nat :: CutAt(Pair(x, sep, y), sep, i) ==> i == |TrimSpace(x)|
  }

  lemma PairTold(x: string, sep: string, y: string, x2: string, y2: string)
    requires OneCut(x, sep, y) && Pair(x2, sep, y2) == Pair(x, sep, y)
    ensures TrimSpace(x2) == TrimSpace(x) && TrimSpace(y2) == TrimSpace(y)
  {
    OwnCut(x, sep, y);
    OwnCut(x2, sep, y2);
  }

  lemma OtherPair(x: string, sep: string, y: string) returns (x2: string, y2: string)
    requires !OneCut(x, sep, y)
    ensures Pair(x2, sep, y2) == Pair(x, sep, y) && TrimSpace(x2) != TrimSpace(x)
  {
    var text := Pair(x, sep, y);
    var i: nat :| CutAt(text, sep, i) && i != |TrimSpace(x)|;
    CutMakes(text, sep, i);
    x2, y2 := text[..i], text[i + |sep|..];
  }

  // ----- moving a separator -----

  lemma JoinPair(x: string, y: string, sep: char)
    ensures Join([x, y], sep) == x + [sep] + y
  {
    assert [x, y][1..] == [y];
  }

  lemma JoinTriple(x: string, y: string, z: string, sep: char)
    ensures Join([x, y, z], sep) == x + [sep] + (y + [sep] + z)
  {
    assert [x, y, z][1..] == [y, z];
    JoinPair(y, z, sep);
  }

  /** Two neighbours `x sep y, z` and `x, y sep z` join alike. */
  lemma MoveSep(x: string, y: string, z: string, sep: char)
    ensures Join([x + [sep] + y, z], sep) == Join([x, y + [sep] + z], sep)
  {
    JoinPair(x + [sep] + y, z, sep);
    JoinPair(x, y + [sep] + z, sep);
    Associative(x + [sep], y, [sep] + z);
    Associative(y, [sep], z);
    assert (x + [sep] + y) + [sep] + z == (x + [sep]) + (y + [sep] + z);
  }

  /** A list of two parts or more is determined by its joined text exactly when no part holds the
      separator: otherwise a separator can move to a neighbour. */
  lemma JoinDeterminesExactly(parts: seq<string>, sep: char)
    requires |parts| > 1
    ensures (forall other: seq<string> :: |other| == |parts| && Join(other, sep) == Join(parts, sep) ==> other == parts)
            <==> Free(sep, parts)
  {
    if Free(sep, parts) {
      forall other: seq<string> | |other| == |parts| && Join(other, sep) == Join(parts, sep) ensures other == parts {
        JoinDetermines(parts, other, sep);
      }
    } else {
      var other := Twin(parts, sep);
    }
  }

  lemma Twin(parts: seq<string>, sep: char) returns (other: seq<string>)
    requires |parts| > 1 && !Free(sep, parts)
    ensures |other| == |parts| && other != parts && Join(other, sep) == Join(parts, sep)
  {
    var p :| p in parts && sep in p;
    var i :| 0 <= i < |parts| && parts[i] == p;
    var k := IndexOf(p, sep);
    var x, y := p[..k], p[k + 1..];
    assert p == x + [sep] + y;
    if i + 1 < |parts| {
      MoveSep(x, y, parts[i + 1], sep);
      other := Neighbours(parts, i, x, y + [sep] + parts[i + 1], sep);
      assert |other[i]| < |parts[i]|;
    } else {
      MoveSep(parts[i - 1], x, y, sep);
      other := Neighbours(parts, i - 1, parts[i - 1] + [sep] + x, y, sep);
      assert |other[i]| < |parts[i]|;
    }
  }

  /** Exchanging two neighbours for two others that join alike. */
  lemma Neighbours(parts: seq<string>, i: nat, x: string, y: string, sep: char) returns (other: seq<string>)
    requires i + 1 < |parts| && Join([x, y], sep) == Join([parts[i], parts[i + 1]], sep)
    ensures |other| == |parts| && other[i] == x && other[i + 1] == y && Join(other, sep) == Join(parts, sep)
  {
    var front, back := parts[..i], parts[i + 2..];
    other := front + [x, y] + back;
    assert parts == front + [parts[i], parts[i + 1]] + back;
    JoinMiddle(front, [x, y], [parts[i], parts[i + 1]], back, sep);
  }
}
