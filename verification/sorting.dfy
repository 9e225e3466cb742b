/** `sort.Strings`: the strings of a slice in byte-wise order. */
module Sorting {

  predicate Le(a: string, b: string) {
    |a| == 0 || (|b| > 0 && (a[0] < b[0] || (a[0] == b[0] && Le(a[1..], b[1..]))))
  }

  /** The texts agree up to `k`, and there the first is smaller. */
  predicate SmallerAt(a: string, b: string, k: nat) {
    k < |a| && k < |b| && a[..k] == b[..k] && a[k] < b[k]
  }

  lemma SmallerFurther(a: string, b: string, k: nat)
    requires |a| > 0 && |b| > 0 && a[0] == b[0]
    ensures SmallerAt(a[1..], b[1..], k) <==> SmallerAt(a, b, k + 1)
  {
    if k < |a[1..]| && k < |b[1..]| {
      assert a[..k + 1] == [a[0]] + a[1..][..k] && b[..k + 1] == [b[0]] + b[1..][..k];
      assert a[..k + 1][1..] == a[1..][..k] && b[..k + 1][1..] == b[1..][..k];
    }
  }

  /** Byte-wise order: a prefix comes first, and otherwise the first difference decides. */
  lemma {:induction false} LeIsFirstDifference(a: string, b: string)
    ensures Le(a, b) <==> a <= b || exists k: nat :: SmallerAt(a, b, k)
  {
    if |a| > 0 && |b| > 0 && a[0] == b[0] {
      LeIsFirstDifference(a[1..], b[1..]);
      assert a == [a[0]] + a[1..] && b == [b[0]] + b[1..];
      assert a <= b <==> a[1..] <= b[1..];
      if k: nat :| SmallerAt(a[1..], b[1..], k) {
        SmallerFurther(a, b, k);
      }
      if k: nat :| SmallerAt(a, b, k) {
        assert k > 0;
        SmallerFurther(a, b, k - 1);
      }
    } else if |a| > 0 && |b| > 0 {
      assert a <= b <==> |a| <= |b| && a == b[..|a|];
      assert SmallerAt(a, b, 0) <==> a[0] < b[0];
      assert forall k: nat :: k > 0 && SmallerAt(a, b, k) ==> a[..k][0] == a[0] && b[..k][0] == b[0];
    }
  }

  function Insert(x: string, sorted: seq<string>): seq<string> {
    if |sorted| == 0 || Le(x, sorted[0]) then [x] + sorted else [sorted[0]] + Insert(x, sorted[1..])
  }

  function Sort(s: seq<string>): seq<string> {
    if |s| == 0 then [] else Insert(s[0], Sort(s[1..]))
  }

  ghost predicate Sorted(s: seq<string>) {
    forall i, j :: 0 <= i < j < |s| ==> Le(s[i], s[j])
  }

  ghost predicate StrictlySorted(s: seq<string>) {
    forall i, j :: 0 <= i < j < |s| ==> Le(s[i], s[j]) && s[i] != s[j]
  }

  lemma {:induction false} LeTotal(a: string, b: string)
    ensures Le(a, b) || Le(b, a)
    ensures Le(a, b) && Le(b, a) ==> a == b
  {
    if |a| > 0 && |b| > 0 && a[0] == b[0] {
      LeTotal(a[1..], b[1..]);
      assert a == [a[0]] + a[1..] && b == [b[0]] + b[1..];
    }
  }

  lemma {:induction false} LeTransitive(a: string, b: string, c: string)
    requires Le(a, b) && Le(b, c)
    ensures Le(a, c)
  {
    if |a| > 0 && a[0] == b[0] && b[0] == c[0] {
      LeTransitive(a[1..], b[1..], c[1..]);
    }
  }

  lemma TailBag(s: seq<string>)
    requires |s| > 0
    ensures multiset(s) == multiset{s[0]} + multiset(s[1..])
  {
    assert s == [s[0]] + s[1..];
  }

  lemma {:induction false} InsertBag(x: string, s: seq<string>)
    ensures multiset(Insert(x, s)) == multiset{x} + multiset(s)
  {
    if |s| > 0 && !Le(x, s[0]) {
      InsertBag(x, s[1..]);
      TailBag(s);
      TailBag(Insert(x, s));
      assert Insert(x, s)[1..] == Insert(x, s[1..]);
    }
  }

  lemma SortedCons(x: string, rest: seq<string>)
    requires Sorted(rest) && forall y :: y in rest ==> Le(x, y)
    ensures Sorted([x] + rest)
  {
    forall j | 0 <= j < |rest| ensures Le(x, rest[j]) { assert rest[j] in rest; }
  }

  lemma {:induction false} InsertSorts(x: string, sorted: seq<string>)
    requires Sorted(sorted)
    ensures Sorted(Insert(x, sorted))
  {
    if |sorted| > 0 && !Le(x, sorted[0]) {
      LeTotal(x, sorted[0]);
      InsertSorts(x, sorted[1..]);
      forall y | y in Insert(x, sorted[1..]) ensures Le(sorted[0], y) {
        InsertBag(x, sorted[1..]);
        assert y in multiset(Insert(x, sorted[1..]));
        assert y == x || y in sorted[1..];
      }
      SortedCons(sorted[0], Insert(x, sorted[1..]));
    } else {
      forall y | y in sorted ensures Le(x, y) {
        var j :| 0 <= j < |sorted| && sorted[j] == y;
        if j > 0 {
          LeTransitive(x, sorted[0], y);
        }
      }
      SortedCons(x, sorted);
    }
  }

  /** The result is in order and is a permutation of the input. */
  lemma {:induction false} SortSorts(s: seq<string>)
    ensures Sorted(Sort(s)) && multiset(Sort(s)) == multiset(s) && |Sort(s)| == |s|
  {
    if |s| > 0 {
      SortSorts(s[1..]);
      InsertSorts(s[0], Sort(s[1..]));
      InsertBag(s[0], Sort(s[1..]));
      TailBag(s);
    }
    assert |multiset(Sort(s))| == |multiset(s)|;
  }

  lemma SortedHead(a: seq<string>, x: string)
    requires Sorted(a) && x in a
    ensures Le(a[0], x)
  {
    var i :| 0 <= i < |a| && a[i] == x;
    LeTotal(a[0], a[0]);
  }

  lemma SameHead(a: seq<string>, b: seq<string>)
    requires Sorted(a) && Sorted(b) && multiset(a) == multiset(b) && |a| > 0 && |b| > 0
    ensures a[0] == b[0] && multiset(a[1..]) == multiset(b[1..])
  {
    assert a[0] in multiset(a) && b[0] in multiset(b);
    SortedHead(a, b[0]);
    SortedHead(b, a[0]);
    LeTotal(a[0], b[0]);
    TailBag(a);
    TailBag(b);
    assert multiset(a[1..]) == multiset(a) - multiset{a[0]};
    assert multiset(b[1..]) == multiset(b) - multiset{a[0]};
  }

  /** There is only one way to put a bag of strings in order. */
  lemma {:induction false} SortedUnique(a: seq<string>, b: seq<string>)
    requires Sorted(a) && Sorted(b) && multiset(a) == multiset(b)
    ensures a == b
  {
    assert |multiset(a)| == |a| && |multiset(b)| == |b|;
    if |a| > 0 {
      SameHead(a, b);
      SortedUnique(a[1..], b[1..]);
      assert a == [a[0]] + a[1..] && b == [b[0]] + b[1..];
    }
  }

  /** Permuted inputs sort alike. */
  lemma SortIgnoresOrder(a: seq<string>, b: seq<string>)
    requires multiset(a) == multiset(b)
    ensures Sort(a) == Sort(b)
  {
    SortSorts(a);
    SortSorts(b);
    SortedUnique(Sort(a), Sort(b));
  }
}
