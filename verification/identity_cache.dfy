/** The bounded in-process cache of subject to email, and its use by the token validator. */
module IdentityCache {
  import opened Text

  datatype Entry = Entry(expiresAt: int, email: string)

  // ----- a bounded map that forgets its oldest insertions -----

  function Without<V>(m: map<string, V>, k: string): map<string, V> {
    m - {k}
  }

  /** Pop the front of `order` and delete that subject, until the map fits. */
  function Evicted<V>(m: map<string, V>, order: seq<string>, max: nat): (map<string, V>, seq<string>)
    decreases order
  {
    if |m| > max && |order| > 0 then Evicted(Without(m, order[0]), order[1..], max) else (m, order)
  }

  /** `order` records a subject when it is inserted, not when it is refreshed. */
  function Stored<V>(m: map<string, V>, order: seq<string>, max: nat, k: string, v: V): (map<string, V>, seq<string>) {
    Evicted(m[k := v], if k in m then order else order + [k], max)
  }

  predicate Listed<V>(m: map<string, V>, order: seq<string>) {
    forall k :: k in m ==> k in order
  }

  lemma WithoutSize<V>(m: map<string, V>, k: string)
    ensures |Without(m, k)| == if k in m then |m| - 1 else |m|
  {
    var r := Without(m, k);
    assert r.Keys == m.Keys - {k};
    assert |r| == |r.Keys| && |m| == |m.Keys|;
  }

  lemma StoreSize<V>(m: map<string, V>, k: string, v: V)
    ensures |m[k := v]| == if k in m then |m| else |m| + 1
  {
    assert m[k := v].Keys == m.Keys + {k};
    assert |m[k := v]| == |m[k := v].Keys| && |m| == |m.Keys|;
  }

  /** The first subject of `order` that is still in the map; stale ones are passed over. */
  function FirstLive<V>(m: map<string, V>, order: seq<string>): Option<string> {
    if |order| == 0 then None
    else if order[0] in m then Some(order[0])
    else FirstLive(m, order[1..])
  }

  lemma {:induction false} ListedHasLive<V>(m: map<string, V>, order: seq<string>)
    requires Listed(m, order) && |m| > 0
    ensures FirstLive(m, order).Some? && FirstLive(m, order).value in m
  {
    assert |m.Keys| == |m|;
    var k :| k in m;
    assert k in order;
    if order[0] !in m {
      forall k | k in m ensures k in order[1..] {
        assert order == [order[0]] + order[1..];
      }
      ListedHasLive(m, order[1..]);
    }
  }

  lemma ListedTail<V>(m: map<string, V>, order: seq<string>)
    requires Listed(m, order) && |order| > 0
    ensures Listed(Without(m, order[0]), order[1..])
  {
    assert order == [order[0]] + order[1..];
  }

  /** One entry too many costs exactly the first live subject, and nothing is ever lost from `order`
      that the map still needs. */
  lemma {:induction false} EvictsFirstLive<V>(m: map<string, V>, order: seq<string>, max: nat)
    requires Listed(m, order) && |m| <= max + 1
    ensures var (kept, rest) := Evicted(m, order, max);
            && |kept| <= max && Listed(kept, rest)
            && (|m| <= max ==> kept == m && rest == order)
            && (|m| > max ==> FirstLive(m, order).Some? && kept == Without(m, FirstLive(m, order).value))
    decreases order
  {
    if |m| > max {
      ListedHasLive(m, order);
      WithoutSize(m, order[0]);
      ListedTail(m, order);
      EvictsFirstLive(Without(m, order[0]), order[1..], max);
      if order[0] !in m {
        assert Without(m, order[0]) == m;
      }
    }
  }

  /** Storing keeps the bound, and can cost the very subject being stored: exactly when the map is
      full, the subject is new, and the first live subject of the order is a stale mention of it. */
  lemma StoredFacts<V>(m: map<string, V>, order: seq<string>, max: nat, k: string, v: V)
    requires Listed(m, order) && |m| <= max
    ensures var (kept, rest) := Stored(m, order, max, k, v);
            && |kept| <= max && Listed(kept, rest)
            && (k !in kept <==> k !in m && |m| == max && FirstLive(m[k := v], order + [k]) == Some(k))
  {
    var queue := if k in m then order else order + [k];
    StoreSize(m, k, v);
    assert Listed(m[k := v], queue);
    EvictsFirstLive(m[k := v], queue, max);
  }

  // ----- the cache -----

  function Answer(entries: map<string, Entry>, subject: string, now: int): string {
    if subject != "" && subject in entries && entries[subject].expiresAt > now then entries[subject].email else ""
  }

  /** Looking up an expired subject deletes it (from the map only). */
  function Pruned(entries: map<string, Entry>, subject: string, now: int): map<string, Entry> {
    if subject != "" && subject in entries && entries[subject].expiresAt <= now then Without(entries, subject)
    else entries
  }

  function PrunedDenials(negatives: map<string, int>, subject: string, now: int): map<string, int> {
    if subject != "" && subject in negatives && negatives[subject] <= now then Without(negatives, subject)
    else negatives
  }

  class InMemoryTtlIdentityEmailCache {
    const ttl: int
    const negativeTTL: int
    const maxEntries: nat
    var entries: map<string, Entry>
    var negatives: map<string, int>
    var order: seq<string>
    var negOrder: seq<string>

    /** Every stored subject can still be found by eviction, and the bound holds. */
    ghost predicate Valid()
      reads this
    {
      && Listed(entries, order) && |entries| <= maxEntries
      && Listed(negatives, negOrder) && |negatives| <= maxEntries
    }

    constructor (ttl: int, negativeTTL: int, maxEntries: nat)
      ensures Valid() && this.ttl == ttl && this.negativeTTL == negativeTTL && this.maxEntries == maxEntries
      ensures entries == map[] && negatives == map[]
    {
      this.ttl, this.negativeTTL, this.maxEntries := ttl, negativeTTL, maxEntries;
      entries, negatives, order, negOrder := map[], map[], [], [];
    }

    method Get(subject: string, now: int) returns (email: string)
      requires Valid()
      modifies this`entries
      ensures Valid()
      ensures email == Answer(old(entries), subject, now)
      ensures entries == Pruned(old(entries), subject, now)
    {
      if subject == "" || subject !in entries {
        return "";
      }
      var entry := entries[subject];
      if entry.expiresAt <= now {
        WithoutSize(entries, subject);
        entries := Without(entries, subject);
        return "";
      }
      return entry.email;
    }

    method Set(subject: string, email: string, now: int)
      requires Valid()
      modifies this`entries, this`order
      ensures Valid()
      ensures (entries, order) == if subject == "" || email == "" then (old(entries), old(order))
                                  else Stored(old(entries), old(order), maxEntries, subject, Entry(now + ttl, email))
    {
      if subject == "" || email == "" {
        return;
      }
      StoreSize(entries, subject, Entry(now + ttl, email));
      if subject !in entries {
        order := order + [subject];
      }
      entries := entries[subject := Entry(now + ttl, email)];
      EvictsFirstLive(entries, order, maxEntries);
      ghost var target := Evicted(entries, order, maxEntries);
      while |entries| > maxEntries && |order| > 0
        invariant Evicted(entries, order, maxEntries) == target
        decreases |order|
      {
        var oldest := order[0];
        order := order[1..];
        entries := Without(entries, oldest);
      }
    }

    method IsNegative(subject: string, now: int) returns (negative: bool)
      requires Valid()
      modifies this`negatives
      ensures Valid()
      ensures negative == (subject != "" && subject in old(negatives) && old(negatives)[subject] > now)
      ensures negatives == PrunedDenials(old(negatives), subject, now)
    {
      if subject == "" || subject !in negatives {
        return false;
      }
      if negatives[subject] <= now {
        WithoutSize(negatives, subject);
        negatives := Without(negatives, subject);
        return false;
      }
      return true;
    }

    method SetNegative(subject: string, now: int)
      requires Valid()
      modifies this`negatives, this`negOrder
      ensures Valid()
      ensures (negatives, negOrder) ==
              if subject == "" || negativeTTL <= 0 then (old(negatives), old(negOrder))
              else Stored(old(negatives), old(negOrder), maxEntries, subject, now + negativeTTL)
    {
      if subject == "" || negativeTTL <= 0 {
        return;
      }
      StoreSize(negatives, subject, now + negativeTTL);
      if subject !in negatives {
        negOrder := negOrder + [subject];
      }
      negatives := negatives[subject := now + negativeTTL];
      EvictsFirstLive(negatives, negOrder, maxEntries);
      ghost var target := Evicted(negatives, negOrder, maxEntries);
      while |negatives| > maxEntries && |negOrder| > 0
        invariant Evicted(negatives, negOrder, maxEntries) == target
        decreases |negOrder|
      {
        var oldest := negOrder[0];
        negOrder := negOrder[1..];
        negatives := Without(negatives, oldest);
      }
    }
  }

  // ----- whole runs of the positive half -----

  datatype CacheOp = GetOp(subject: string, now: int) | SetOp(subject: string, email: string, now: int)

  datatype State = State(entries: map<string, Entry>, order: seq<string>)

  function Apply(s: State, op: CacheOp, ttl: int, max: nat): State {
    match op
    case GetOp(subject, now) => s.(entries := Pruned(s.entries, subject, now))
    case SetOp(subject, email, now) =>
      if subject == "" || email == "" then s
      else var (e, o) := Stored(s.entries, s.order, max, subject, Entry(now + ttl, email)); State(e, o)
  }

  function After(ops: seq<CacheOp>, ttl: int, max: nat): State {
    if |ops| == 0 then State(map[], [])
    else Apply(After(ops[..|ops| - 1], ttl, max), ops[|ops| - 1], ttl, max)
  }

  /** The last effective `Set` of a subject. */
  function LastSet(ops: seq<CacheOp>, subject: string): Option<CacheOp> {
    if |ops| == 0 then None
    else
      var last := ops[|ops| - 1];
      if last.SetOp? && last.subject == subject && subject != "" && last.email != "" then Some(last)
      else LastSet(ops[..|ops| - 1], subject)
  }

  lemma {:induction false} LastSetIsSet(ops: seq<CacheOp>, subject: string)
    ensures LastSet(ops, subject).Some? ==>
              var op := LastSet(ops, subject).value; op.SetOp? && op.subject == subject && op.email != "" && op in ops
    ensures subject == "" ==> LastSet(ops, subject) == None
  {
    if |ops| > 0 {
      LastSetIsSet(ops[..|ops| - 1], subject);
    }
  }

  lemma {:induction false} EvictedIsSubmap<V>(m: map<string, V>, order: seq<string>, max: nat)
    ensures forall k :: k in Evicted(m, order, max).0 ==> k in m && Evicted(m, order, max).0[k] == m[k]
    decreases order
  {
    if |m| > max && |order| > 0 {
      EvictedIsSubmap(Without(m, order[0]), order[1..], max);
    }
  }

  ghost predicate Bounded(s: State, max: nat) {
    |s.entries| <= max && Listed(s.entries, s.order)
  }

  /** What is stored for `k` is what `op` set. */
  predicate IsFrom(s: State, k: string, op: Option<CacheOp>, ttl: int) {
    k in s.entries ==> op.Some? && op.value.SetOp? && s.entries[k] == Entry(op.value.now + ttl, op.value.email)
  }

  lemma ApplyKeepsBound(s: State, op: CacheOp, ttl: int, max: nat)
    requires Bounded(s, max)
    ensures Bounded(Apply(s, op, ttl, max), max)
  {
    match op
    case GetOp(subject, now) => WithoutSize(s.entries, subject);
    case SetOp(subject, email, now) => StoredFacts(s.entries, s.order, max, subject, Entry(now + ttl, email));
  }

  lemma ApplyStoresOnlySets(s: State, op: CacheOp, ttl: int, max: nat, k: string)
    ensures var t := Apply(s, op, ttl, max);
            k in t.entries ==> if op.SetOp? && op.subject == k && k != "" && op.email != ""
                               then t.entries[k] == Entry(op.now + ttl, op.email)
                               else k in s.entries && t.entries[k] == s.entries[k]
  {
    if op.SetOp? {
      EvictedIsSubmap(s.entries[op.subject := Entry(op.now + ttl, op.email)],
                      if op.subject in s.entries then s.order else s.order + [op.subject], max);
    }
  }

  /** After every sequence of operations: the bound holds, every stored subject occurs in `order`,
      and what is stored is what was last set. */
  lemma {:induction false} RunInvariant(ops: seq<CacheOp>, ttl: int, max: nat)
    ensures Bounded(After(ops, ttl, max), max)
    ensures forall k :: IsFrom(After(ops, ttl, max), k, LastSet(ops, k), ttl)
  {
    if |ops| > 0 {
      var shorter, op := ops[..|ops| - 1], ops[|ops| - 1];
      var before := After(shorter, ttl, max);
      RunInvariant(shorter, ttl, max);
      ApplyKeepsBound(before, op, ttl, max);
      forall k ensures IsFrom(After(ops, ttl, max), k, LastSet(ops, k), ttl) {
        ApplyStoresOnlySets(before, op, ttl, max, k);
        assert IsFrom(before, k, LastSet(shorter, k), ttl);
      }
    }
  }

  /** A stored subject is answered with the last email set for it until that email's TTL is over; a subject that
      is not stored is not answered. */
  lemma GetIsLastSet(ops: seq<CacheOp>, ttl: int, max: nat, subject: string, now: int)
    ensures var s, op := After(ops, ttl, max), LastSet(ops, subject);
            && (subject in s.entries ==>
                  && op.Some? && op.value.SetOp? && op.value in ops && op.value.subject == subject
                  && Answer(s.entries, subject, now) == if now < op.value.now + ttl then op.value.email else "")
            && (subject !in s.entries ==> Answer(s.entries, subject, now) == "")
  {
    RunInvariant(ops, ttl, max);
    LastSetIsSet(ops, subject);
    AnswerIsStored(After(ops, ttl, max), subject, LastSet(ops, subject), ttl, now);
  }

  lemma AnswerIsStored(s: State, subject: string, op: Option<CacheOp>, ttl: int, now: int)
    requires IsFrom(s, subject, op, ttl) && (op.Some? ==> op.value.SetOp? && op.value.subject == subject)
    requires subject == "" ==> op == None
    ensures subject in s.entries ==>
              op.Some? && Answer(s.entries, subject, now) == if now < op.value.now + ttl then op.value.email else ""
    ensures subject !in s.entries ==> Answer(s.entries, subject, now) == ""
  {
  }

  /** `op` is the last that sets the subject to something. */
  lemma {:induction false} LastSetIsLast(ops: seq<CacheOp>, subject: string, i: nat)
    requires i < |ops| && ops[i].SetOp? && ops[i].subject == subject && subject != "" && ops[i].email != ""
    requires forall j :: i < j < |ops| ==> !(ops[j].SetOp? && ops[j].subject == subject && ops[j].email != "")
    ensures LastSet(ops, subject) == Some(ops[i])
  {
    if i < |ops| - 1 {
      LastSetIsLast(ops[..|ops| - 1], subject, i);
    }
  }

  /** How a stored subject leaves the cache: it is asked for when it has expired, or another that is new is stored
      in a full cache of whose insertions this one is the oldest alive. Otherwise it stays. */
  lemma EntryLeavesExactly(s: State, op: CacheOp, ttl: int, max: nat, k: string)
    requires Bounded(s, max) && k in s.entries && k != ""
    ensures k !in Apply(s, op, ttl, max).entries <==>
            if op.GetOp? then op.subject == k && s.entries[k].expiresAt <= op.now
            else
              && op.subject != "" && op.email != "" && op.subject !in s.entries && |s.entries| == max
              && FirstLive(s.entries[op.subject := Entry(op.now + ttl, op.email)], s.order + [op.subject]) == Some(k)
  {
    if op.SetOp? {
      StoredLeaves(s.entries, s.order, max, op.subject, Entry(op.now + ttl, op.email), k);
    }
  }

  /** What storing does to `order`: nothing when the subject is refreshed; a new subject is added at the back, and
      when the cache was full, everything up to the first live subject is taken off the front. */
  lemma StoredOrderExactly<V>(m: map<string, V>, order: seq<string>, max: nat, k: string, v: V)
    requires Listed(m, order) && |m| <= max
    ensures var (kept, rest) := Stored(m, order, max, k, v);
            && (k in m ==> kept == m[k := v] && rest == order)
            && (k !in m && |m| < max ==> kept == m[k := v] && rest == order + [k])
            && (k !in m && |m| == max ==> UpToFirstLive(m[k := v], order + [k], rest))
  {
    var queue := if k in m then order else order + [k];
    StoreSize(m, k, v);
    assert Listed(m[k := v], queue);
    EvictsFirstLive(m[k := v], queue, max);
    if k !in m && |m| == max {
      EvictedFront(m[k := v], queue, max);
    }
  }

  /** `rest` is what follows the first live subject of `order`, which is the `n`-th. */
  ghost predicate FollowsLive<V>(m: map<string, V>, order: seq<string>, rest: seq<string>, n: nat) {
    n < |order| && order[n] in m && rest == order[n + 1..] && forall i :: 0 <= i < n ==> order[i] !in m
  }

  ghost predicate UpToFirstLive<V>(m: map<string, V>, order: seq<string>, rest: seq<string>) {
    exists n: nat :: FollowsLive(m, order, rest, n)
  }

  lemma OneFurther<V>(m: map<string, V>, order: seq<string>, rest: seq<string>)
    requires |order| > 0 && order[0] !in m && UpToFirstLive(m, order[1..], rest)
    ensures UpToFirstLive(m, order, rest)
  {
    var n: nat :| FollowsLive(m, order[1..], rest, n);
    forall i | 0 <= i < n + 1 ensures order[i] !in m {
      assert i > 0 ==> order[1..][i - 1] == order[i];
    }
    assert order[1..][n + 1..] == order[n + 2..];
    assert FollowsLive(m, order, rest, n + 1);
  }

  lemma FitsAlready<V>(m: map<string, V>, order: seq<string>, max: nat)
    requires |m| <= max
    ensures Evicted(m, order, max) == (m, order)
  {
  }

  lemma {:induction false} EvictedFront<V>(m: map<string, V>, order: seq<string>, max: nat)
    requires Listed(m, order) && |m| == max + 1
    ensures UpToFirstLive(m, order, Evicted(m, order, max).1)
    decreases order
  {
    ListedHasLive(m, order);
    WithoutSize(m, order[0]);
    if order[0] in m {
      FitsAlready(Without(m, order[0]), order[1..], max);
      assert FollowsLive(m, order, order[1..], 0);
    } else {
      assert Without(m, order[0]) == m;
      ListedTail(m, order);
      EvictedFront(m, order[1..], max);
      OneFurther(m, order, Evicted(m, order[1..], max).1);
    }
  }

  lemma StoredLeaves<V>(m: map<string, V>, order: seq<string>, max: nat, subject: string, v: V, k: string)
    requires Listed(m, order) && |m| <= max && k in m
    ensures k !in Stored(m, order, max, subject, v).0 <==>
            subject !in m && |m| == max && FirstLive(m[subject := v], order + [subject]) == Some(k)
  {
    var queue := if subject in m then order else order + [subject];
    StoreSize(m, subject, v);
    assert Listed(m[subject := v], queue);
    EvictsFirstLive(m[subject := v], queue, max);
  }

  // ----- what a full cache does to the entry just stored -----

  /** `Set` can evict the very entry it stores: exactly when the cache is full, the subject is new,
      and the first live subject of `order` is an older, stale mention of that same subject. */
  lemma SetEvictsItselfExactly(s: State, subject: string, email: string, now: int, ttl: int, max: nat)
    requires Listed(s.entries, s.order) && |s.entries| <= max && subject != "" && email != ""
    ensures subject !in Apply(s, SetOp(subject, email, now), ttl, max).entries <==>
            && subject !in s.entries && |s.entries| == max
            && FirstLive(s.entries[subject := Entry(now + ttl, email)], s.order + [subject]) == Some(subject)
  {
    StoredFacts(s.entries, s.order, max, subject, Entry(now + ttl, email));
  }

  lemma ApplySet(s: State, subject: string, email: string, now: int, ttl: int, max: nat)
    requires subject != "" && email != ""
    ensures var (e, o) := Stored(s.entries, s.order, max, subject, Entry(now + ttl, email));
            Apply(s, SetOp(subject, email, now), ttl, max) == State(e, o)
  {
  }

  lemma FreshSet(s: State, subject: string, email: string, now: int, ttl: int, max: nat)
    requires subject !in s.entries && |s.entries| < max && subject != "" && email != ""
    ensures Apply(s, SetOp(subject, email, now), ttl, max)
         == State(s.entries[subject := Entry(now + ttl, email)], s.order + [subject])
  {
    StoreSize(s.entries, subject, Entry(now + ttl, email));
  }

  function Cycle(now: int, ttl: int): seq<CacheOp> {
    [SetOp("a", "a@x", now), GetOp("a", now + ttl)]
  }

  /** "a" is stored and expires. */
  lemma OneCycle(ops: seq<CacheOp>, now: int, ttl: int, max: nat)
    requires After(ops, ttl, max).entries == map[] && max > 0
    ensures After(ops + Cycle(now, ttl), ttl, max)
         == State(map[], After(ops, ttl, max).order + ["a"])
  {
    var s, set_, get := After(ops, ttl, max), SetOp("a", "a@x", now), GetOp("a", now + ttl);
    var longer := ops + Cycle(now, ttl);
    assert longer[..|longer| - 1] == ops + [set_];
    assert (ops + [set_])[..|ops|] == ops;
    FreshSet(s, "a", "a@x", now, ttl, max);
    var t := Apply(s, set_, ttl, max);
    assert After(ops + [set_], ttl, max) == t;
    assert Without(t.entries, "a") == map[];
  }

  /** A subject other than "a". */
  function Newcomer(k: nat): string { "b" + Decimal(k) }

  function Fill(n: nat, now: int): seq<CacheOp> {
    if n == 0 then [] else Fill(n - 1, now) + [SetOp(Newcomer(n - 1), "b@x", now)]
  }

  /** "a" is out, but still stands at the front of `order`. */
  predicate StaleFirst(s: State, n: nat) {
    |s.entries| == n && "a" !in s.entries && |s.order| > 0 && s.order[0] == "a"
  }

  /** The first `n` newcomers are in, behind that mention. */
  ghost predicate Filled(s: State, n: nat) {
    StaleFirst(s, n) && forall k: nat :: k >= n ==> Newcomer(k) !in s.entries
  }

  lemma NewcomersDiffer(k: nat)
    ensures Newcomer(k) != "a" && Newcomer(k) != ""
    ensures forall j: nat :: Newcomer(j) == Newcomer(k) ==> j == k
  {
    assert Newcomer(k)[0] == 'b';
    forall j: nat | Newcomer(j) == Newcomer(k) ensures j == k {
      assert Newcomer(j)[1..] == Decimal(j) && Newcomer(k)[1..] == Decimal(k);
      DecimalInjective(j, k);
    }
  }

  lemma AfterOne(ops: seq<CacheOp>, op: CacheOp, ttl: int, max: nat)
    ensures After(ops + [op], ttl, max) == Apply(After(ops, ttl, max), op, ttl, max)
  {
    assert (ops + [op])[..|ops|] == ops;
  }

  lemma NewcomerFills(s: State, n: nat, now: int, ttl: int, max: nat)
    requires Filled(s, n) && n < max
    ensures Filled(Apply(s, SetOp(Newcomer(n), "b@x", now), ttl, max), n + 1)
  {
    NewcomersDiffer(n);
    FreshSet(s, Newcomer(n), "b@x", now, ttl, max);
    StoreSize(s.entries, Newcomer(n), Entry(now + ttl, "b@x"));
  }

  lemma OneMoreFills(ops: seq<CacheOp>, n: nat, now: int, ttl: int, max: nat)
    requires Filled(After(ops, ttl, max), n) && n < max
    ensures Filled(After(ops + [SetOp(Newcomer(n), "b@x", now)], ttl, max), n + 1)
  {
    NewcomerFills(After(ops, ttl, max), n, now, ttl, max);
    AfterOne(ops, SetOp(Newcomer(n), "b@x", now), ttl, max);
  }

  lemma {:induction false} FillFills(ops: seq<CacheOp>, n: nat, now: int, ttl: int, max: nat)
    requires n <= max && Filled(After(ops, ttl, max), 0)
    ensures Filled(After(ops + Fill(n, now), ttl, max), n)
  {
    if n == 0 {
      assert ops + [] == ops;
    } else {
      FillFills(ops, n - 1, now, ttl, max);
      OneMoreFills(ops + Fill(n - 1, now), n - 1, now, ttl, max);
      Associative(ops, Fill(n - 1, now), [SetOp(Newcomer(n - 1), "b@x", now)]);
    }
  }

  lemma ExpiredIsFilled(ttl: int, max: nat)
    requires max > 0
    ensures Filled(After(Cycle(0, ttl), ttl, max), 0)
  {
    OneCycle([], 0, ttl, max);
    assert [] + Cycle(0, ttl) == Cycle(0, ttl) && [] + ["a"] == ["a"];
  }

  predicate FullWithout(s: State, max: nat, subject: string) {
    subject !in s.entries && |s.entries| == max
  }

  /** It happens in every cache with room for something, whatever its TTL: "a" is stored and expires, `max` others come,
      and then storing "a" again is undone at once by the stale "a" at the front of `order`. */
  lemma SetCanEvictItself(ttl: int, max: nat, now: int)
    requires max > 0
    ensures FullWithout(After(Cycle(0, ttl) + Fill(max, ttl) + [SetOp("a", "a@x", now)], ttl, max), max, "a")
  {
    var ops := Cycle(0, ttl) + Fill(max, ttl);
    ExpiredIsFilled(ttl, max);
    FillFills(Cycle(0, ttl), max, ttl, ttl, max);
    RunInvariant(ops, ttl, max);
    SetAgain(After(ops, ttl, max), now, ttl, max);
    AfterOne(ops, SetOp("a", "a@x", now), ttl, max);
  }

  lemma SetAgain(s: State, now: int, ttl: int, max: nat)
    requires StaleFirst(s, max) && Listed(s.entries, s.order)
    ensures FullWithout(Apply(s, SetOp("a", "a@x", now), ttl, max), max, "a")
  {
    FullEvicts(s, max, Entry(now + ttl, "a@x"));
    ApplySet(s, "a", "a@x", now, ttl, max);
  }

  lemma FullEvicts(s: State, max: nat, entry: Entry)
    requires StaleFirst(s, max) && Listed(s.entries, s.order)
    ensures var (kept, rest) := Stored(s.entries, s.order, max, "a", entry); "a" !in kept && |kept| == max
  {
    var e, order := s.entries["a" := entry], s.order + ["a"];
    assert order[0] == "a";
    StoreSize(s.entries, "a", entry);
    assert Listed(e, order);
    EvictsFirstLive(e, order, max);
    WithoutSize(e, "a");
  }

  lemma OneCycleGrows(ops: seq<CacheOp>, n: nat, max: nat)
    requires Grown(ops, n, max) && max > 0
    ensures Grown(ops + Cycle(0, 1), n + 1, max)
  {
    OneCycle(ops, 0, 1, max);
  }

  function Cycles(n: nat): seq<CacheOp> {
    if n == 0 then [] else Cycles(n - 1) + Cycle(0, 1)
  }

  /** `order` itself is not bounded: a subject that keeps expiring before it is stored again leaves
      a stale mention every time, although the cache stays empty. */
  lemma {:induction false} OrderGrows(n: nat, max: nat)
    requires max > 0
    ensures Grown(Cycles(n), n, max)
  {
    if n > 0 {
      OrderGrows(n - 1, max);
      OneCycleGrows(Cycles(n - 1), n - 1, max);
    }
  }

  predicate Grown(ops: seq<CacheOp>, n: nat, max: nat) {
    After(ops, 1, max).entries == map[] && |After(ops, 1, max).order| == n
  }

  // ----- resolving a subject -----

  /** What Cognito says: an error, no such user, or an email (perhaps blank). */
  datatype LookupResult = Failed | NotFound | Email(email: string)

  /** `lookup` is `None` when no lookup is configured. Each call on the cache reads the clock for itself. */
  method ResolveEmailBySub(c: InMemoryTtlIdentityEmailCache, subject: string, lookup: Option<LookupResult>,
                           getAt: int, deniedAt: int, setAt: int)
    returns (email: string)
    requires c.Valid()
    modifies c
    ensures c.Valid()
    ensures var known := Answer(old(c.entries), subject, getAt);
            var denied := subject in old(c.negatives) && old(c.negatives)[subject] > deniedAt;
            var pruned := Pruned(old(c.entries), subject, getAt);
            var denials := PrunedDenials(old(c.negatives), subject, deniedAt);
            if subject == "" || known != "" then
              && email == known && c.entries == pruned && c.order == old(c.order)
              && c.negatives == old(c.negatives) && c.negOrder == old(c.negOrder)
            else if denied || lookup == None || lookup == Some(Failed) then
              // nothing is remembered, only expired entries go
              && email == "" && c.entries == pruned && c.order == old(c.order)
              && c.negatives == denials && c.negOrder == old(c.negOrder)
            else if lookup == Some(NotFound) then
              && email == "" && c.entries == pruned && c.order == old(c.order)
              && (c.negatives, c.negOrder) == if c.negativeTTL <= 0 then (denials, old(c.negOrder))
                 else Stored(denials, old(c.negOrder), c.maxEntries, subject, setAt + c.negativeTTL)
            else
              && email == TrimSpace(lookup.value.email) && c.negatives == denials && c.negOrder == old(c.negOrder)
              && (c.entries, c.order) == if email == "" then (pruned, old(c.order))
                 else Stored(pruned, old(c.order), c.maxEntries, subject, Entry(setAt + c.ttl, email))
  {
    if subject == "" {
      return "";
    }
    var cached := c.Get(subject, getAt);
    if cached != "" {
      return cached;
    }
    var negative := c.IsNegative(subject, deniedAt);
    if negative || lookup == None {
      return "";
    }
    match lookup.value
    case Failed => return "";
    case NotFound =>
      c.SetNegative(subject, setAt);
      return "";
    case Email(found) =>
      email := TrimSpace(found);
      if email != "" {
        c.Set(subject, email, setAt);
      }
  }
}
