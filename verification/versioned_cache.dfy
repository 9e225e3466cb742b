/** The scheme behind every read cache of the service: an entry's key carries the current
    version of each scope it belongs to, and invalidating a scope only bumps its counter. */
module VersionedCache {
  import opened Text
  import opened Joining

  /** One version counter. */
  datatype Scope = Scope(kind: string, id: string)

  /** What a key is made of: a fixed prefix, the versions of `scopes`, then `body`. `behind` is what the
      request asks for that the body only abbreviates: fields it runs together, lists it hashes. */
  datatype Request = Request(prefix: seq<string>, scopes: seq<Scope>, body: seq<string>, behind: seq<string>)

  datatype Store<V> = Store(counters: map<Scope, nat>, entries: map<string, V>)

  function Find<K, V>(m: map<K, V>, k: K): Option<V> {
    if k in m then Some(m[k]) else None
  }

  function Version(counters: map<Scope, nat>, scope: Scope): nat {
    if scope in counters then counters[scope] else 0
  }

  function Versions(counters: map<Scope, nat>, scopes: seq<Scope>): (versions: seq<nat>)
    ensures |versions| == |scopes|
  {
    seq(|scopes|, i requires 0 <= i < |scopes| => Version(counters, scopes[i]))
  }

  function Decimals(versions: seq<nat>): (texts: seq<string>)
    ensures |texts| == |versions|
  {
    seq(|versions|, i requires 0 <= i < |versions| => Decimal(versions[i]))
  }

  function Parts(versions: seq<nat>, r: Request): seq<string> {
    r.prefix + Decimals(versions) + r.body
  }

  function KeyOf(sep: char, versions: seq<nat>, r: Request): string {
    Join(Parts(versions, r), sep)
  }

  function CurrentKey(sep: char, counters: map<Scope, nat>, r: Request): string {
    KeyOf(sep, Versions(counters, r.scopes), r)
  }

  // ----- keys -----

  /** Equal keys mean the same request at the same versions. */
  ghost predicate Distinct(sep: char, r1: Request, r2: Request) {
    forall v1, v2 :: |v1| == |r1.scopes| && |v2| == |r2.scopes| && KeyOf(sep, v1, r1) == KeyOf(sep, v2, r2)
      ==> r1 == r2 && v1 == v2
  }

  predicate SepFree(sep: char, r: Request) {
    !IsDigit(sep) && sep != '-' && Free(sep, r.prefix) && Free(sep, r.body)
  }

  lemma DecimalsFree(sep: char, versions: seq<nat>)
    requires !IsDigit(sep) && sep != '-'
    ensures Free(sep, Decimals(versions))
  {
    forall p | p in Decimals(versions) ensures sep !in p {
      var i :| 0 <= i < |versions| && p == Decimal(versions[i]);
      DecimalChars(versions[i]);
    }
  }

  lemma DecimalsInjective(a: seq<nat>, b: seq<nat>)
    requires Decimals(a) == Decimals(b)
    ensures a == b
  {
    forall i | 0 <= i < |a| ensures i < |b| && a[i] == b[i] {
      assert |Decimals(a)| == |Decimals(b)| && Decimals(a)[i] == Decimals(b)[i];
      DecimalInjective(a[i], b[i]);
    }
  }

  lemma KeyDeterminesParts(sep: char, v1: seq<nat>, r1: Request, v2: seq<nat>, r2: Request)
    requires SepFree(sep, r1) && SepFree(sep, r2) && |r1.body| > 0 && |r2.body| > 0
    requires KeyOf(sep, v1, r1) == KeyOf(sep, v2, r2)
    ensures Parts(v1, r1) == Parts(v2, r2)
  {
    DecimalsFree(sep, v1);
    DecimalsFree(sep, v2);
    JoinInjective(Parts(v1, r1), Parts(v2, r2), sep);
  }

  /** Two requests of one shape have distinct keys if one of them is free of the separator, as soon as
      the body fixes the scopes and what it abbreviates. */
  lemma SameShapeDistinct(sep: char, r1: Request, r2: Request)
    requires SepFree(sep, r1) && |r1.body| == |r2.body| > 0
    requires |r1.prefix| == |r2.prefix| && |r1.scopes| == |r2.scopes|
    requires r1.body == r2.body ==> r1.scopes == r2.scopes && r1.behind == r2.behind
    ensures Distinct(sep, r1, r2)
  {
    forall v1, v2 | |v1| == |r1.scopes| && |v2| == |r2.scopes| && KeyOf(sep, v1, r1) == KeyOf(sep, v2, r2)
      ensures r1 == r2 && v1 == v2
    {
      DecimalsFree(sep, v1);
      JoinDetermines(Parts(v1, r1), Parts(v2, r2), sep);
      SameParts(v1, r1, v2, r2);
      DecimalsInjective(v1, v2);
    }
  }

  /** Separator-free requests whose keys have different numbers of parts, or different prefixes of one
      length, share no key. */
  lemma OtherShapeDistinct(sep: char, r1: Request, r2: Request)
    requires SepFree(sep, r1) && SepFree(sep, r2) && |r1.body| > 0 && |r2.body| > 0
    requires || |r1.prefix| + |r1.scopes| + |r1.body| != |r2.prefix| + |r2.scopes| + |r2.body|
             || (|r1.prefix| == |r2.prefix| && r1.prefix != r2.prefix)
    ensures Distinct(sep, r1, r2)
  {
    forall v1, v2 | |v1| == |r1.scopes| && |v2| == |r2.scopes|
      ensures KeyOf(sep, v1, r1) != KeyOf(sep, v2, r2)
    {
      PartsPrefix(v1, r1);
      PartsPrefix(v2, r2);
      if KeyOf(sep, v1, r1) == KeyOf(sep, v2, r2) {
        KeyDeterminesParts(sep, v1, r1, v2, r2);
      }
    }
  }

  lemma PartsPrefix(v: seq<nat>, r: Request)
    ensures |r.prefix| <= |Parts(v, r)| && Parts(v, r)[..|r.prefix|] == r.prefix
  {
  }

  lemma SameParts(v1: seq<nat>, r1: Request, v2: seq<nat>, r2: Request)
    requires Parts(v1, r1) == Parts(v2, r2) && |r1.prefix| == |r2.prefix| && |v1| == |v2|
    ensures r1.prefix == r2.prefix && Decimals(v1) == Decimals(v2) && r1.body == r2.body
  {
    var n, m := |r1.prefix|, |v1|;
    var p1, p2 := Parts(v1, r1), Parts(v2, r2);
    assert p1[..n] == r1.prefix && p2[..n] == r2.prefix;
    assert p1[n..n + m] == Decimals(v1) && p2[n..n + m] == Decimals(v2);
    assert p1[n + m..] == r1.body && p2[n + m..] == r2.body;
  }

  // ----- the cache and its reference -----

  function Cached<V>(sep: char, s: Store<V>, r: Request): Option<V> {
    Find(s.entries, CurrentKey(sep, s.counters, r))
  }

  function Put<V>(sep: char, s: Store<V>, r: Request, v: V): Store<V> {
    s.(entries := s.entries[CurrentKey(sep, s.counters, r) := v])
  }

  function Bump<V>(s: Store<V>, scope: Scope): Store<V> {
    s.(counters := s.counters[scope := Version(s.counters, scope) + 1])
  }

  /** The reference: entries by request, deleted outright when one of their scopes is invalidated. */
  function Drop<V>(e: map<Request, V>, scope: Scope): map<Request, V> {
    map r | r in e && scope !in r.scopes :: e[r]
  }

  datatype Op<V> = Get(req: Request) | Set(req: Request, value: V) | Invalidate(scope: Scope)

  function Versioned<V>(sep: char, s: Store<V>, ops: seq<Op<V>>): seq<Option<V>>
    decreases ops
  {
    if |ops| == 0 then []
    else
      match ops[0]
      case Get(r) => [Cached(sep, s, r)] + Versioned(sep, s, ops[1..])
      case Set(r, v) => Versioned(sep, Put(sep, s, r, v), ops[1..])
      case Invalidate(scope) => Versioned(sep, Bump(s, scope), ops[1..])
  }

  function Eager<V>(e: map<Request, V>, ops: seq<Op<V>>): seq<Option<V>>
    decreases ops
  {
    if |ops| == 0 then []
    else
      match ops[0]
      case Get(r) => [Find(e, r)] + Eager(e, ops[1..])
      case Set(r, v) => Eager(e[r := v], ops[1..])
      case Invalidate(scope) => Eager(Drop(e, scope), ops[1..])
  }

  // ----- refinement -----

  ghost predicate AllDistinct(sep: char, reqs: set<Request>) {
    forall r1, r2 :: r1 in reqs && r2 in reqs ==> Distinct(sep, r1, r2)
  }

  ghost predicate NoneAhead<V>(sep: char, s: Store<V>, r: Request) {
    forall v :: |v| == |r.scopes| && KeyOf(sep, v, r) in s.entries
      ==> forall i :: 0 <= i < |v| ==> v[i] <= Version(s.counters, r.scopes[i])
  }

  /** Current entries agree with the reference, and no stored key is ahead of its counters. */
  ghost predicate Simulates<V>(sep: char, reqs: set<Request>, s: Store<V>, e: map<Request, V>) {
    forall r :: r in reqs ==> Cached(sep, s, r) == Find(e, r) && NoneAhead(sep, s, r)
  }

  lemma PutKeeps<V>(sep: char, s: Store<V>, e: map<Request, V>, q: Request, v: V, r: Request)
    requires Distinct(sep, r, q) && Cached(sep, s, r) == Find(e, r) && NoneAhead(sep, s, r)
    ensures Cached(sep, Put(sep, s, q, v), r) == Find(e[q := v], r)
    ensures NoneAhead(sep, Put(sep, s, q, v), r)
  {
    var t, key := Put(sep, s, q, v), CurrentKey(sep, s.counters, q);
    if CurrentKey(sep, s.counters, r) == key {
      assert r == q;
    }
    forall w | |w| == |r.scopes| && KeyOf(sep, w, r) in t.entries
      ensures forall i :: 0 <= i < |w| ==> w[i] <= Version(t.counters, r.scopes[i])
    {
      if KeyOf(sep, w, r) == key {
        assert w == Versions(s.counters, q.scopes) && r == q;
      }
    }
  }

  lemma PutSimulates<V>(sep: char, reqs: set<Request>, s: Store<V>, e: map<Request, V>, q: Request, v: V)
    requires AllDistinct(sep, reqs) && q in reqs && Simulates(sep, reqs, s, e)
    ensures Simulates(sep, reqs, Put(sep, s, q, v), e[q := v])
  {
    var t := Put(sep, s, q, v);
    forall r | r in reqs ensures Cached(sep, t, r) == Find(e[q := v], r) && NoneAhead(sep, t, r) {
      PutKeeps(sep, s, e, q, v, r);
    }
  }

  lemma BumpSimulates<V>(sep: char, reqs: set<Request>, s: Store<V>, e: map<Request, V>, scope: Scope)
    requires AllDistinct(sep, reqs) && Simulates(sep, reqs, s, e)
    ensures Simulates(sep, reqs, Bump(s, scope), Drop(e, scope))
  {
    var t := Bump(s, scope);
    forall r | r in reqs ensures Cached(sep, t, r) == Find(Drop(e, scope), r) && NoneAhead(sep, t, r) {
      assert Cached(sep, s, r) == Find(e, r) && NoneAhead(sep, s, r);
      var old_, new_ := Versions(s.counters, r.scopes), Versions(t.counters, r.scopes);
      if scope in r.scopes {
        var i :| 0 <= i < |r.scopes| && r.scopes[i] == scope;
        assert new_[i] == Version(s.counters, scope) + 1;
        assert KeyOf(sep, new_, r) !in s.entries;
      } else {
        assert old_ == new_;
      }
    }
  }

  function Requests<V>(ops: seq<Op<V>>): set<Request> {
    if |ops| == 0 then {}
    else (if ops[0].Invalidate? then {} else {ops[0].req}) + Requests(ops[1..])
  }

  lemma {:induction false} VersionedIsEager<V>(sep: char, reqs: set<Request>, s: Store<V>, e: map<Request, V>,
                                               ops: seq<Op<V>>)
    requires AllDistinct(sep, reqs) && Requests(ops) <= reqs && Simulates(sep, reqs, s, e)
    ensures Versioned(sep, s, ops) == Eager(e, ops)
    decreases ops
  {
    if |ops| > 0 {
      match ops[0]
      case Get(r) => VersionedIsEager(sep, reqs, s, e, ops[1..]);
      case Set(r, v) =>
        PutSimulates(sep, reqs, s, e, r, v);
        VersionedIsEager(sep, reqs, Put(sep, s, r, v), e[r := v], ops[1..]);
      case Invalidate(scope) =>
        BumpSimulates(sep, reqs, s, e, scope);
        VersionedIsEager(sep, reqs, Bump(s, scope), Drop(e, scope), ops[1..]);
    }
  }

  /** Bumping versions is as good as deleting: started empty, over every sequence of reads,
      writes and invalidations, both caches give the same hits and the same values. */
  lemma VersioningRefinesDeletion<V>(sep: char, ops: seq<Op<V>>)
    requires AllDistinct(sep, Requests(ops))
    ensures Versioned(sep, Store(map[], map[]), ops) == Eager(map[], ops)
  {
    VersionedIsEager(sep, Requests(ops), Store(map[], map[]), map[], ops);
  }
}
