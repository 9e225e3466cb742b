/** The in-process sliding-window rate limiter. Times are in nanoseconds. */
module RateLimit {

  /** The grants still inside the window at `now`. */
  function Recent(times: seq<int>, now: int, window: int): seq<int> {
    if |times| == 0 then []
    else (if now - times[0] < window then [times[0]] else []) + Recent(times[1..], now, window)
  }

  // ----- the store -----

  /** A Go slice: the first `len` elements of a buffer that other slices may share. */
  datatype Slice = Slice(buf: array<int>, len: nat)

  lemma {:induction false} RecentAppend(a: seq<int>, b: seq<int>, now: int, window: int)
    ensures Recent(a + b, now, window) == Recent(a, now, window) + Recent(b, now, window)
  {
    if |a| == 0 {
      assert a + b == b;
    } else {
      assert (a + b)[1..] == a[1..] + b;
      RecentAppend(a[1..], b, now, window);
    }
  }

  /** `active := entries[:0]`, then appending the recent times while ranging over `entries`: the
      kept prefix overwrites the very buffer that is being read. */
  method Compact(slice: Slice, now: int, window: int) returns (n: nat)
    requires slice.len <= slice.buf.Length
    modifies slice.buf
    ensures n <= slice.len
    ensures slice.buf[..n] == Recent(old(slice.buf[..slice.len]), now, window)
  {
    var buf := slice.buf;
    ghost var before := buf[..slice.len];
    n := 0;
    for i := 0 to slice.len
      invariant n <= i
      invariant buf[..n] == Recent(before[..i], now, window)
      invariant forall k :: i <= k < slice.len ==> buf[k] == before[k]
    {
      assert buf[i] == before[i];
      assert before[..i + 1] == before[..i] + [before[i]];
      RecentAppend(before[..i], [before[i]], now, window);
      if now - buf[i] < window {
        buf[n] := buf[i];
        assert buf[..n + 1] == Recent(before[..i], now, window) + [before[i]];
        n := n + 1;
      }
    }
    assert before[..slice.len] == before;
  }

  /** Go's `append`: in place while there is room, otherwise into a larger copy. */
  method Append(slice: Slice, x: int) returns (longer: Slice)
    requires slice.len <= slice.buf.Length
    modifies slice.buf
    ensures longer.len == slice.len + 1 <= longer.buf.Length
    ensures longer.buf == slice.buf || fresh(longer.buf)
    ensures longer.buf[..longer.len] == old(slice.buf[..slice.len]) + [x]
  {
    if slice.len < slice.buf.Length {
      slice.buf[slice.len] := x;
      longer := Slice(slice.buf, slice.len + 1);
    } else {
      var grown := new int[2 * slice.len + 1];
      for i := 0 to slice.len
        invariant grown[..i] == slice.buf[..i]
        invariant slice.buf[..slice.len] == old(slice.buf[..slice.len])
      {
        grown[i] := slice.buf[i];
      }
      grown[slice.len] := x;
      longer := Slice(grown, slice.len + 1);
    }
  }

  const DEFAULT_LIMIT := 60
  const DEFAULT_WINDOW_SECONDS := 60
  const SECOND := 1_000_000_000

  class MemoryRateLimitStore {
    const limit: int
    const window: int
    var entries: map<string, Slice>

    ghost function Buffers(): set<object>
      reads this
    {
      set k | k in entries :: entries[k].buf
    }

    /** No two keys share a buffer, so compacting one slice in place disturbs no other. */
    ghost predicate Valid()
      reads this
    {
      && (forall k :: k in entries ==> entries[k].len <= entries[k].buf.Length)
      && (forall k, l :: k in entries && l in entries && k != l ==> entries[k].buf != entries[l].buf)
    }

    ghost function Times(key: string): seq<int>
      requires Valid()
      reads this, Buffers()
    {
      if key in entries then entries[key].buf[..entries[key].len] else []
    }

    constructor (limit: int, windowSeconds: int)
      ensures Valid() && entries == map[]
      ensures this.limit == if limit <= 0 then DEFAULT_LIMIT else limit
      ensures this.window == (if windowSeconds <= 0 then DEFAULT_WINDOW_SECONDS else windowSeconds) * SECOND
    {
      this.limit := if limit <= 0 then DEFAULT_LIMIT else limit;
      this.window := (if windowSeconds <= 0 then DEFAULT_WINDOW_SECONDS else windowSeconds) * SECOND;
      entries := map[];
    }

    method Allow(key: string, now: int) returns (granted: bool)
      requires Valid()
      modifies this, Buffers()
      ensures Valid() && fresh(Buffers() - old(Buffers()))
      ensures var recent := Recent(old(Times(key)), now, window);
              && granted == (|recent| < limit)
              && Times(key) == if granted then recent + [now] else recent
      ensures forall k :: k != key ==> Times(k) == old(Times(k))
    {
      var slice: Slice;
      if key in entries {
        slice := entries[key];
      } else {
        var none := new int[0];
        slice := Slice(none, 0);
      }
      ghost var recent := Recent(slice.buf[..slice.len], now, window);
      var active := Compact(slice, now, window);
      if active >= limit {
        entries := entries[key := Slice(slice.buf, active)];
        return false;
      }
      var appended := Append(Slice(slice.buf, active), now);
      entries := entries[key := appended];
      return true;
    }
  }

  // ----- whole runs -----

  datatype Call = Call(key: string, now: int)

  /** One call on the list kept for its key, as `Allow` is specified. */
  function Decide(times: seq<int>, limit: int, window: int, now: int): (bool, seq<int>) {
    var recent := Recent(times, now, window);
    if |recent| < limit then (true, recent + [now]) else (false, recent)
  }

  /** What is kept for `key` after a run. */
  function Kept(limit: int, window: int, calls: seq<Call>, key: string): seq<int>
    decreases |calls|
  {
    if |calls| == 0 then []
    else
      var before := Kept(limit, window, calls[..|calls| - 1], key);
      var last := calls[|calls| - 1];
      if last.key == key then Decide(before, limit, window, last.now).1 else before
  }

  /** Was the last call granted? */
  predicate Granted(limit: int, window: int, calls: seq<Call>)
    requires |calls| > 0
  {
    var last := calls[|calls| - 1];
    Decide(Kept(limit, window, calls[..|calls| - 1], last.key), limit, window, last.now).0
  }

  /** The whole history: every time at which `key` was granted. Nothing is ever dropped from it. */
  function Grants(limit: int, window: int, calls: seq<Call>, key: string): seq<int>
    decreases |calls|
  {
    if |calls| == 0 then []
    else
      var before := Grants(limit, window, calls[..|calls| - 1], key);
      var last := calls[|calls| - 1];
      if last.key == key && Granted(limit, window, calls) then before + [last.now] else before
  }

  /** Some call on `key` dropped a grant as too old that is still inside the window at `now`. */
  ghost predicate Lost(limit: int, window: int, calls: seq<Call>, key: string, now: int) {
    exists j, g :: 0 <= j < |calls| && calls[j].key == key && g in Grants(limit, window, calls[..j], key)
                   && calls[j].now - g >= window && now - g < window
  }

  /** The last call's share in that. */
  ghost predicate LostNow(grants: seq<int>, dropped: int, now: int, window: int) {
    exists g :: g in grants && dropped - g >= window && now - g < window
  }

  lemma LostStep(limit: int, window: int, calls: seq<Call>, key: string, now: int)
    requires |calls| > 0
    ensures var shorter, last := calls[..|calls| - 1], calls[|calls| - 1];
            Lost(limit, window, calls, key, now) <==>
            || Lost(limit, window, shorter, key, now)
            || (last.key == key && LostNow(Grants(limit, window, shorter, key), last.now, now, window))
  {
    var n := |calls| - 1;
    var shorter := calls[..n];
    forall j | 0 <= j <= n ensures calls[..j] == shorter[..j] { }
    assert shorter[..n] == shorter;
    if g :| g in Grants(limit, window, shorter, key) && calls[n].now - g >= window && now - g < window
            && calls[n].key == key {
      assert calls[..n] == shorter && g in Grants(limit, window, calls[..n], key);
    }
    if j, g :| 0 <= j < |shorter| && shorter[j].key == key && g in Grants(limit, window, shorter[..j], key)
               && shorter[j].now - g >= window && now - g < window
    {
      assert calls[j].key == key && g in Grants(limit, window, calls[..j], key) && calls[j].now - g >= window;
    }
  }

  lemma {:induction false} RecentMembers(times: seq<int>, now: int, window: int)
    ensures forall x :: x in Recent(times, now, window) <==> x in times && now - x < window
  {
    if |times| > 0 {
      RecentMembers(times[1..], now, window);
      assert times == [times[0]] + times[1..];
    }
  }

  lemma LostNowStep(times: seq<int>, dropped: int, now: int, window: int)
    requires |times| > 0
    ensures LostNow(times, dropped, now, window) <==>
            (dropped - times[0] >= window && now - times[0] < window) || LostNow(times[1..], dropped, now, window)
  {
    assert times[0] in times && times == [times[0]] + times[1..];
    if g :| g in times && dropped - g >= window && now - g < window {
      assert g == times[0] || g in times[1..];
    }
    if g :| g in times[1..] && dropped - g >= window && now - g < window {
      assert g in times;
    }
  }

  /** Filtering at one time and then at another drops more than filtering at the second alone exactly when
      something had left the window then and is inside it now. */
  lemma {:induction false} RecentTwice(times: seq<int>, first: int, now: int, window: int)
    ensures var twice, once := Recent(Recent(times, first, window), now, window), Recent(times, now, window);
            && (LostNow(times, first, now, window) ==> |twice| < |once|)
            && (!LostNow(times, first, now, window) ==> twice == once)
  {
    if |times| > 0 {
      var rest := times[1..];
      RecentTwice(rest, first, now, window);
      LostNowStep(times, first, now, window);
      if first - times[0] < window {
        assert Recent(times, first, window)[1..] == Recent(rest, first, window);
      } else {
        assert Recent(times, first, window) == Recent(rest, first, window);
      }
    }
  }

  /** What `Allow` keeps shows exactly the grants of the window at `now`, unless a grant was lost; then it
      shows fewer. */
  lemma {:induction false} KeptShowsGrantsExactly(limit: int, window: int, calls: seq<Call>, key: string, now: int)
    ensures var kept, all := Recent(Kept(limit, window, calls, key), now, window),
                             Recent(Grants(limit, window, calls, key), now, window);
            && (kept == all <==> !Lost(limit, window, calls, key, now))
            && (Lost(limit, window, calls, key, now) ==> |kept| < |all|)
    decreases |calls|
  {
    if |calls| > 0 {
      var shorter, last := calls[..|calls| - 1], calls[|calls| - 1];
      KeptShowsGrantsExactly(limit, window, shorter, key, now);
      LostStep(limit, window, calls, key, now);
      if last.key == key {
        KeptStep(limit, window, calls, now);
      }
    }
  }

  /** The step of `KeptShowsGrantsExactly` for a call on the key. */
  lemma KeptStep(limit: int, window: int, calls: seq<Call>, now: int)
    requires |calls| > 0
    ensures var shorter, last := calls[..|calls| - 1], calls[|calls| - 1];
            var kept, grants := Kept(limit, window, shorter, last.key), Grants(limit, window, shorter, last.key);
            var added := if Granted(limit, window, calls) then Recent([last.now], now, window) else [];
            && Recent(Kept(limit, window, calls, last.key), now, window)
               == Recent(Recent(kept, last.now, window), now, window) + added
            && Recent(Grants(limit, window, calls, last.key), now, window) == Recent(grants, now, window) + added
            && (Recent(kept, now, window) == Recent(grants, now, window) ==>
                  (LostNow(kept, last.now, now, window) <==> LostNow(grants, last.now, now, window)))
            && (LostNow(kept, last.now, now, window) ==>
                  |Recent(Recent(kept, last.now, window), now, window)| < |Recent(kept, now, window)|)
            && (!LostNow(kept, last.now, now, window) ==>
                  Recent(Recent(kept, last.now, window), now, window) == Recent(kept, now, window))
  {
    var shorter, last := calls[..|calls| - 1], calls[|calls| - 1];
    var kept, grants := Kept(limit, window, shorter, last.key), Grants(limit, window, shorter, last.key);
    RecentTwice(kept, last.now, now, window);
    RecentAppend(Recent(kept, last.now, window), [last.now], now, window);
    RecentAppend(grants, [last.now], now, window);
    RecentMembers(kept, now, window);
    RecentMembers(grants, now, window);
  }

  /** `Allow` grants whenever fewer than `limit` grants of that key lie in the last window; and, unless a
      grant of that window was lost, only then. Denials and other keys count for nothing. */
  lemma AllowCountsGrants(limit: int, window: int, calls: seq<Call>)
    requires |calls| > 0
    ensures var shorter, last := calls[..|calls| - 1], calls[|calls| - 1];
            var inWindow := |Recent(Grants(limit, window, shorter, last.key), last.now, window)|;
            && (inWindow < limit ==> Granted(limit, window, calls))
            && (!Lost(limit, window, shorter, last.key, last.now) ==>
                  (Granted(limit, window, calls) <==> inWindow < limit))
  {
    var last := calls[|calls| - 1];
    KeptShowsGrantsExactly(limit, window, calls[..|calls| - 1], last.key, last.now);
  }

  /** No call on `key` misses a grant of its own window. */
  ghost predicate Lossless(limit: int, window: int, calls: seq<Call>, key: string) {
    forall n :: 0 <= n < |calls| && calls[n].key == key ==> !Lost(limit, window, calls[..n], key, calls[n].now)
  }

  /** How many of `times` lie in [from, from + window). */
  function Inside(times: seq<int>, from: int, window: int): nat {
    if |times| == 0 then 0
    else Inside(times[..|times| - 1], from, window) + if from <= times[|times| - 1] < from + window then 1 else 0
  }

  /** Whatever shares such an interval with `now` is recent at `now`. */
  lemma {:induction false} InsideIsRecent(times: seq<int>, from: int, now: int, window: int)
    requires now < from + window
    ensures Inside(times, from, window) <= |Recent(times, now, window)|
  {
    if |times| > 0 {
      var front, last := times[..|times| - 1], times[|times| - 1];
      InsideIsRecent(front, from, now, window);
      assert times == front + [last];
      RecentAppend(front, [last], now, window);
    }
  }

  /** In every run that loses nothing, no half-open interval of one window's length holds more than `limit`
      grants of a key. */
  lemma {:induction false} LosslessWindowBound(limit: int, window: int, calls: seq<Call>, key: string, from: int)
    requires limit >= 0 && Lossless(limit, window, calls, key)
    ensures Inside(Grants(limit, window, calls, key), from, window) <= limit
    decreases |calls|
  {
    if |calls| > 0 {
      var shorter, last := calls[..|calls| - 1], calls[|calls| - 1];
      var before, after := Grants(limit, window, shorter, key), Grants(limit, window, calls, key);
      ShorterIsLossless(limit, window, calls, key);
      LosslessWindowBound(limit, window, shorter, key, from);
      if after != before {
        assert after[..|after| - 1] == before && after[|after| - 1] == last.now;
        if from <= last.now < from + window {
          AllowCountsGrants(limit, window, calls);
          InsideIsRecent(before, from, last.now, window);
        }
      }
    }
  }

  lemma ShorterIsLossless(limit: int, window: int, calls: seq<Call>, key: string)
    requires |calls| > 0 && Lossless(limit, window, calls, key)
    ensures Lossless(limit, window, calls[..|calls| - 1], key)
  {
    var shorter := calls[..|calls| - 1];
    forall n | 0 <= n < |shorter| && shorter[n].key == key
      ensures !Lost(limit, window, shorter[..n], key, shorter[n].now)
    {
      assert calls[..n] == shorter[..n] && calls[n] == shorter[n];
    }
  }

  // ----- an orderly clock -----

  /** The clock never runs backwards for the calls on `key`. */
  ghost predicate InOrder(calls: seq<Call>, key: string) {
    forall i, j :: 0 <= i < j < |calls| && calls[i].key == key && calls[j].key == key ==> calls[i].now <= calls[j].now
  }

  /** Then nothing is lost. */
  lemma OrderlyIsLossless(limit: int, window: int, calls: seq<Call>, key: string)
    requires InOrder(calls, key)
    ensures Lossless(limit, window, calls, key)
  {
    forall n | 0 <= n < |calls| && calls[n].key == key ensures !Lost(limit, window, calls[..n], key, calls[n].now) {
      forall j | 0 <= j < n && calls[..n][j].key == key ensures calls[..n][j].now <= calls[n].now { }
    }
  }

  /** In every run with an orderly clock, no half-open interval of one window's length holds more
      than `limit` grants of a key. */
  lemma WindowBound(limit: int, window: int, calls: seq<Call>, key: string, from: int)
    requires limit >= 0 && InOrder(calls, key)
    ensures Inside(Grants(limit, window, calls, key), from, window) <= limit
  {
    OrderlyIsLossless(limit, window, calls, key);
    LosslessWindowBound(limit, window, calls, key, from);
  }

  lemma {:induction false} GrantsAreCalls(limit: int, window: int, calls: seq<Call>, key: string)
    ensures forall g :: g in Grants(limit, window, calls, key) ==>
              exists i :: 0 <= i < |calls| && calls[i] == Call(key, g)
    decreases |calls|
  {
    if |calls| > 0 {
      var shorter := calls[..|calls| - 1];
      GrantsAreCalls(limit, window, shorter, key);
      forall g | g in Grants(limit, window, calls, key)
        ensures exists i :: 0 <= i < |calls| && calls[i] == Call(key, g)
      {
        if g in Grants(limit, window, shorter, key) {
          var i :| 0 <= i < |shorter| && shorter[i] == Call(key, g);
          assert calls[i] == Call(key, g);
        } else {
          assert calls[|calls| - 1] == Call(key, g);
        }
      }
    }
  }

  /** Disorder alone does no harm either: readings that all lie within one window lose nothing. */
  lemma WithinWindowIsLossless(limit: int, window: int, calls: seq<Call>, key: string, from: int)
    requires forall i :: 0 <= i < |calls| ==> from <= calls[i].now < from + window
    ensures Lossless(limit, window, calls, key)
  {
    forall n | 0 <= n < |calls| ensures !Lost(limit, window, calls[..n], key, calls[n].now) {
      forall j, g | 0 <= j < n && g in Grants(limit, window, calls[..n][..j], key)
        ensures calls[..n][j].now - g < window
      {
        GrantsAreCalls(limit, window, calls[..n][..j], key);
        var i :| 0 <= i < j && calls[..n][..j][i] == Call(key, g);
        assert calls[i].now == g;
      }
    }
  }

  // ----- a disorderly clock -----

  function Zeros(n: nat): seq<int> {
    if n == 0 then [] else Zeros(n - 1) + [0]
  }

  function Burst(n: nat): seq<Call> {
    if n == 0 then [] else Burst(n - 1) + [Call("k", 0)]
  }

  /** As many grants at 0 as there may be, then one at `window`, then a reading from just before that. */
  function Late(limit: nat, window: int): seq<Call> {
    Burst(limit) + [Call("k", window)] + [Call("k", window - 1)]
  }

  lemma {:induction false} ZerosInWindow(n: nat, now: int, window: int)
    ensures |Zeros(n)| == n && Recent(Zeros(n), now, window) == if now < window then Zeros(n) else []
    ensures window > 0 ==> Inside(Zeros(n), 0, window) == n
  {
    if n > 0 {
      ZerosInWindow(n - 1, now, window);
      RecentAppend(Zeros(n - 1), [0], now, window);
      assert Zeros(n)[..n - 1] == Zeros(n - 1);
    }
  }

  /** What one more call on "k" leaves. */
  lemma OneMore(limit: int, window: int, calls: seq<Call>, now: int)
    ensures var kept, grants := Kept(limit, window, calls, "k"), Grants(limit, window, calls, "k");
            var longer, recent := calls + [Call("k", now)], Recent(kept, now, window);
            && Kept(limit, window, longer, "k") == (if |recent| < limit then recent + [now] else recent)
            && Grants(limit, window, longer, "k") == (if |recent| < limit then grants + [now] else grants)
  {
    assert (calls + [Call("k", now)])[..|calls|] == calls;
  }

  lemma {:induction false} BurstGranted(limit: nat, window: int, n: nat)
    requires n <= limit && window > 0
    ensures Kept(limit, window, Burst(n), "k") == Grants(limit, window, Burst(n), "k") == Zeros(n)
  {
    if n > 0 {
      BurstGranted(limit, window, n - 1);
      ZerosInWindow(n - 1, 0, window);
      OneMore(limit, window, Burst(n - 1), 0);
    }
  }

  lemma FullBurst(limit: nat, window: int)
    requires limit > 1 && window > 0
    ensures var first := Burst(limit) + [Call("k", window)];
            && Kept(limit, window, first, "k") == [window]
            && Grants(limit, window, first, "k") == Zeros(limit) + [window]
  {
    BurstGranted(limit, window, limit);
    ZerosInWindow(limit, window, window);
    OneMore(limit, window, Burst(limit), window);
    assert [] + [window] == [window];
  }

  lemma LateIsGranted(limit: nat, window: int, calls: seq<Call>)
    requires limit > 1 && Kept(limit, window, calls, "k") == [window]
    ensures Grants(limit, window, calls + [Call("k", window - 1)], "k")
            == Grants(limit, window, calls, "k") + [window - 1]
  {
    OneMore(limit, window, calls, window - 1);
    assert |Recent([window], window - 1, window)| <= 1;
  }

  lemma InsideAppend(times: seq<int>, x: int, from: int, window: int)
    ensures Inside(times + [x], from, window)
         == Inside(times, from, window) + if from <= x < from + window then 1 else 0
  {
    assert (times + [x])[..|times|] == times;
  }

  /** The clock is read before the lock is taken, so readings can arrive out of order; and then, for every
      window and every limit above 1, one late reading puts a grant too many into an interval. */
  lemma LateReadingBreaksBound(limit: nat, window: int)
    requires limit > 1 && window > 0
    ensures Inside(Grants(limit, window, Late(limit, window), "k"), 0, window) == limit + 1
  {
    FullBurst(limit, window);
    LateIsGranted(limit, window, Burst(limit) + [Call("k", window)]);
    ZerosInWindow(limit, 0, window);
    InsideAppend(Zeros(limit), window, 0, window);
    InsideAppend(Zeros(limit) + [window], window - 1, 0, window);
  }

  /** Each grant comes at least one window after the one before. */
  ghost predicate Spaced(times: seq<int>, window: int) {
    forall i :: 0 < i < |times| ==> times[i] - times[i - 1] >= window
  }

  /** With a limit of 1 the last grant is all there is to keep. */
  lemma {:induction false} OneIsSpaced(window: int, calls: seq<Call>, key: string)
    requires window > 0
    ensures var kept, grants := Kept(1, window, calls, key), Grants(1, window, calls, key);
            Spaced(grants, window) && kept == if |grants| == 0 then [] else [grants[|grants| - 1]]
    decreases |calls|
  {
    if |calls| > 0 {
      var shorter, last := calls[..|calls| - 1], calls[|calls| - 1];
      OneIsSpaced(window, shorter, key);
      var before := Kept(1, window, shorter, key);
      assert Recent(before, last.now, window) == if |before| == 1 && last.now - before[0] < window then before else [];
    }
  }

  lemma {:induction false} SpacedInside(times: seq<int>, from: int, window: int)
    requires window > 0 && Spaced(times, window)
    ensures Inside(times, from, window) <= 1
    ensures |times| > 0 && times[|times| - 1] < from ==> Inside(times, from, window) == 0
  {
    if |times| > 0 {
      var front := times[..|times| - 1];
      SpacedInside(front, from, window);
    }
  }

  /** So without an orderly clock the bound is safe for a limit of 1, and for no other. */
  lemma BoundNeedsOrderExactly(limit: nat, window: int)
    requires limit > 0 && window > 0
    ensures (forall calls, key, from :: Inside(Grants(limit, window, calls, key), from, window) <= limit)
            <==> limit == 1
  {
    if limit == 1 {
      forall calls, key, from ensures Inside(Grants(limit, window, calls, key), from, window) <= limit {
        OneIsSpaced(window, calls, key);
        SpacedInside(Grants(limit, window, calls, key), from, window);
      }
    } else {
      LateReadingBreaksBound(limit, window);
    }
  }
}
