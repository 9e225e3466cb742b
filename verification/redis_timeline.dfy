/** The Redis form of the versioned caches, as a history of single commands from any number of
    clients. Entries and version counters expire, `INCR` and `EXPIRE` are separate commands,
    and a client's reads, Core call and write can be interleaved with everyone else's. */
module RedisTimeline {
  import opened Text
  import opened VersionedCache

  const DAY := 86_400_000 // milliseconds

  /** Stands for a blank loan or client id, whose version is "0" without asking Redis. */
  const NO_SCOPE := Scope("", "")

  datatype Command =
    | Tick(elapsed: nat)
    | ReadVersion(scope: Scope)
    | Incr(scope: Scope)
    | Expire(scope: Scope)
    | Commit(id: nat)                 // a create succeeds in Core
    | Load(req: Request)              // a list is read from Core
    | Write(req: Request, versions: seq<nat>, readAt: seq<nat>, load: nat, ttl: nat, items: seq<nat>)
    | Fetch(req: Request, versions: seq<nat>, readAt: seq<nat>)

  datatype Counter = Counter(value: nat, expires: Option<nat>)

  /** `writer` is the position of the command that wrote the entry. */
  datatype Entry = Entry(items: seq<nat>, expires: nat, writer: nat)

  datatype Redis = Redis(now: nat, counters: map<Scope, Counter>, entries: map<string, Entry>)

  predicate Alive(s: Redis, scope: Scope) {
    scope in s.counters && (s.counters[scope].expires.Some? ==> s.now < s.counters[scope].expires.value)
  }

  function VersionOf(s: Redis, scope: Scope): nat {
    if Alive(s, scope) then s.counters[scope].value else 0
  }

  function Step(sep: char, s: Redis, c: Command, at: nat): Redis {
    match c
    case Tick(elapsed) => s.(now := s.now + elapsed)
    case Incr(scope) =>
      s.(counters := s.counters[scope :=
        if Alive(s, scope) then s.counters[scope].(value := s.counters[scope].value + 1) else Counter(1, None)])
    case Expire(scope) =>
      if Alive(s, scope) then s.(counters := s.counters[scope := s.counters[scope].(expires := Some(s.now + DAY))])
      else s
    case Write(req, versions, _, _, ttl, items) =>
      s.(entries := s.entries[KeyOf(sep, versions, req) := Entry(items, s.now + ttl, at)])
    case _ => s
  }

  /** A history; the separator belongs to the key format. */
  datatype History = History(sep: char, trace: seq<Command>, listed: (nat, Request) -> bool)
  {
    function At(n: nat): Redis
      requires n <= |trace|
    {
      if n == 0 then Redis(0, map[], map[]) else Step(sep, At(n - 1), trace[n - 1], n - 1)
    }

    function Now(n: nat): nat
      requires n <= |trace|
    {
      At(n).now
    }

    /** What Core lists for `req` at position `n`: the matching creates committed by then. */
    function CoreList(n: nat, req: Request): seq<nat>
      requires n <= |trace|
    {
      if n == 0 then []
      else
        CoreList(n - 1, req) +
        (if trace[n - 1].Commit? && listed(trace[n - 1].id, req) then [trace[n - 1].id] else [])
    }

    function Hit(q: nat): Option<Entry>
      requires q < |trace| && trace[q].Fetch?
    {
      var key := KeyOf(sep, trace[q].versions, trace[q].req);
      var s := At(q);
      if key in s.entries && s.now < s.entries[key].expires then Some(s.entries[key]) else None
    }

    /** A client builds its key from versions it read earlier, one read per scope. */
    ghost predicate ReadsBefore(n: nat, req: Request, versions: seq<nat>, readAt: seq<nat>)
      requires n < |trace|
    {
      && |versions| == |readAt| == |req.scopes|
      && forall j :: 0 <= j < |readAt| ==>
           && readAt[j] < n && trace[readAt[j]] == ReadVersion(req.scopes[j])
           && versions[j] == VersionOf(At(readAt[j]), req.scopes[j])
    }

    /** The same for a command about to be appended. */
    ghost predicate ReadsNow(req: Request, versions: seq<nat>, readAt: seq<nat>) {
      && |versions| == |readAt| == |req.scopes|
      && forall j :: 0 <= j < |readAt| ==>
           && readAt[j] < |trace| && trace[readAt[j]] == ReadVersion(req.scopes[j])
           && versions[j] == VersionOf(At(readAt[j]), req.scopes[j])
    }

    /** Every client follows its program: `GetList` reads the versions and fetches; the cache-aside
        reader loads from Core, then reads the versions again, then writes what it loaded. */
    ghost predicate WellFormed() {
      forall n :: 0 <= n < |trace| ==> FollowsProgram(n)
    }

    ghost predicate FollowsProgram(n: nat)
      requires n < |trace|
    {
      var c := trace[n];
      && (c.Write? || c.Fetch? ==> ReadsBefore(n, c.req, c.versions, c.readAt))
      && (c.Write? ==> c.load < n && trace[c.load] == Load(c.req) && c.items == CoreList(c.load, c.req)
                       && forall j :: 0 <= j < |c.readAt| ==> c.load < c.readAt[j])
      && (c.Incr? ==> c.scope != NO_SCOPE)
    }

    ghost function Reqs(): set<Request> {
      (set n | 0 <= n < |trace| && trace[n].Write? :: trace[n].req) +
      (set n | 0 <= n < |trace| && trace[n].Fetch? :: trace[n].req)
    }

    ghost predicate NoBump(scope: Scope, from: nat, upTo: nat) {
      forall n :: from <= n < upTo && n < |trace| ==> trace[n] != Incr(scope)
    }

    /** The counter read for scope `j` by the writer at `p` was not due to expire before the entry,
        and the write came soon enough after the read for a counter created since to outlast it. */
    ghost predicate Outlasts(p: nat, j: nat)
      requires p < |trace| && trace[p].Write? && j < |trace[p].readAt| && trace[p].readAt[j] < p
      requires j < |trace[p].req.scopes|
    {
      var r, scope := trace[p].readAt[j], trace[p].req.scopes[j];
      var end := Now(p) + trace[p].ttl;
      && end <= Now(r) + DAY
      && (Alive(At(r), scope) && At(r).counters[scope].expires.Some?
          ==> end <= At(r).counters[scope].expires.value)
    }
  }

  // ----- time and entries -----

  lemma {:induction false} TimeMoves(h: History, m: nat, n: nat)
    requires m <= n <= |h.trace|
    ensures h.Now(m) <= h.Now(n)
    decreases n
  {
    if m < n {
      TimeMoves(h, m, n - 1);
    }
  }

  /** Every entry in Redis was put there, under its key, by the command it names. */
  ghost predicate Traced(h: History, n: nat, key: string)
    requires n <= |h.trace|
  {
    key in h.At(n).entries ==>
      var e := h.At(n).entries[key];
      && e.writer < n && h.trace[e.writer].Write?
      && KeyOf(h.sep, h.trace[e.writer].versions, h.trace[e.writer].req) == key
      && e.items == h.trace[e.writer].items
      && e.expires == h.Now(e.writer) + h.trace[e.writer].ttl
  }

  lemma {:induction false} EntriesAreTraced(h: History, n: nat, key: string)
    requires n <= |h.trace|
    ensures Traced(h, n, key)
  {
    if n > 0 {
      EntriesAreTraced(h, n - 1, key);
    }
  }

  // ----- one counter over time -----

  function Bumps(h: History, scope: Scope, from: nat, upTo: nat): nat
    requires from <= upTo <= |h.trace|
    decreases upTo
  {
    if from == upTo then 0
    else Bumps(h, scope, from, upTo - 1) + if h.trace[upTo - 1] == Incr(scope) then 1 else 0
  }

  lemma {:induction false} NoBumpIfZero(h: History, scope: Scope, from: nat, upTo: nat)
    requires from <= upTo <= |h.trace| && Bumps(h, scope, from, upTo) == 0
    ensures h.NoBump(scope, from, upTo)
    decreases upTo
  {
    if from < upTo {
      NoBumpIfZero(h, scope, from, upTo - 1);
    }
  }

  /** After `bumps` increments since it read `version`, and at least until `end`. */
  ghost predicate Tracked(s: Redis, scope: Scope, version: nat, bumps: nat, end: nat) {
    if Alive(s, scope) then
      && s.counters[scope].value == version + bumps
      && (s.counters[scope].expires.Some? ==> end <= s.counters[scope].expires.value)
    else version == 0 && bumps == 0
  }

  /** Until the entry expires, its counter cannot forget a bump. */
  lemma {:induction false} CounterCounts(h: History, scope: Scope, from: nat, upTo: nat, end: nat)
    requires from <= upTo <= |h.trace| && h.Now(upTo) < end <= h.Now(from) + DAY
    requires Tracked(h.At(from), scope, VersionOf(h.At(from), scope), 0, end)
    ensures Tracked(h.At(upTo), scope, VersionOf(h.At(from), scope), Bumps(h, scope, from, upTo), end)
    decreases upTo
  {
    if from < upTo {
      TimeMoves(h, upTo - 1, upTo);
      TimeMoves(h, from, upTo - 1);
      CounterCounts(h, scope, from, upTo - 1, end);
    }
  }

  // ----- hits -----

  /** Every hit was written under the same request and the same versions, and has not expired. */
  lemma HitHasWriter(h: History, q: nat)
    requires h.WellFormed() && AllDistinct(h.sep, h.Reqs())
    requires q < |h.trace| && h.trace[q].Fetch? && h.Hit(q).Some?
    ensures var e := h.Hit(q).value; var p := e.writer;
            && p < q && h.trace[p].Write? && h.trace[p].req == h.trace[q].req
            && h.trace[p].versions == h.trace[q].versions && e.items == h.trace[p].items
            && h.Now(q) < h.Now(p) + h.trace[p].ttl
  {
    var key := KeyOf(h.sep, h.trace[q].versions, h.trace[q].req);
    EntriesAreTraced(h, q, key);
    var p := h.Hit(q).value.writer;
    assert h.FollowsProgram(p);
    assert h.FollowsProgram(q);
    assert h.trace[p].req in h.Reqs() && h.trace[q].req in h.Reqs();
    assert Distinct(h.sep, h.trace[p].req, h.trace[q].req);
  }

  /** ...and no bump of scope `j` lies between the version the writer read and the version the
      hit was found under, if the writer's counter outlasts the entry. */
  lemma HitIsFresh(h: History, q: nat, j: nat)
    requires h.WellFormed() && AllDistinct(h.sep, h.Reqs())
    requires q < |h.trace| && h.trace[q].Fetch? && h.Hit(q).Some? && j < |h.trace[q].req.scopes|
    ensures var p := h.Hit(q).value.writer;
            && p < q && h.trace[p].Write? && h.trace[p].req == h.trace[q].req
            && |h.trace[p].readAt| == |h.trace[q].readAt| == |h.trace[q].req.scopes| && h.trace[p].readAt[j] < p
            && (h.Outlasts(p, j) ==> h.NoBump(h.trace[q].req.scopes[j], h.trace[p].readAt[j], h.trace[q].readAt[j]))
  {
    HitHasWriter(h, q);
    var p := h.Hit(q).value.writer;
    assert h.FollowsProgram(p);
    assert h.FollowsProgram(q);
    var from, upTo, scope := h.trace[p].readAt[j], h.trace[q].readAt[j], h.trace[q].req.scopes[j];
    if h.Outlasts(p, j) && from < upTo {
      TimeMoves(h, upTo, q);
      CounterCounts(h, scope, from, upTo, h.Now(p) + h.trace[p].ttl);
      NoBumpIfZero(h, scope, from, upTo);
    }
  }

  // ----- readers against writers -----

  lemma {:induction false} CoreListHas(h: History, n: nat, req: Request, id: nat)
    requires n <= |h.trace|
    ensures id in h.CoreList(n, req) <==> h.listed(id, req) && Commit(id) in h.trace[..n]
  {
    if n > 0 {
      CoreListHas(h, n - 1, req, id);
      assert h.trace[..n] == h.trace[..n - 1] + [h.trace[n - 1]];
    }
  }

  /** Once a scope was bumped at `b`, a client that asks for its version afterwards is served
      only what was written under a version read after the bump as well. */
  lemma EarlierEntriesMiss(h: History, b: nat, q: nat, j: nat)
    requires h.WellFormed() && AllDistinct(h.sep, h.Reqs())
    requires b < q < |h.trace| && h.trace[q].Fetch? && h.Hit(q).Some?
    requires j < |h.trace[q].req.scopes| && |h.trace[q].readAt| == |h.trace[q].req.scopes|
    requires h.trace[b] == Incr(h.trace[q].req.scopes[j]) && b < h.trace[q].readAt[j]
    ensures var p := h.Hit(q).value.writer;
            && p < q && h.trace[p].Write? && h.trace[p].req == h.trace[q].req
            && |h.trace[p].readAt| == |h.trace[q].req.scopes| && h.trace[p].readAt[j] < p
            && (h.Outlasts(p, j) ==> b < h.trace[p].readAt[j])
  {
    HitIsFresh(h, q, j);
    var p := h.Hit(q).value.writer;
    assert h.FollowsProgram(p);
    assert h.trace[h.trace[p].readAt[j]] == ReadVersion(h.trace[q].req.scopes[j]);
    if h.Outlasts(p, j) {
      assert h.NoBump(h.trace[q].req.scopes[j], h.trace[p].readAt[j], h.trace[q].readAt[j]);
    }
  }

  /** A create commits at `c` and bumps scope `j` at `b`; a reader that asks for the version after
      that gets a hit. The hit misses the create exactly when its writer had loaded from Core
      before the commit, and then the writer asked for the version only after the bump. */
  lemma StaleOnlyByRace(h: History, id: nat, c: nat, b: nat, q: nat, j: nat)
    requires h.WellFormed() && AllDistinct(h.sep, h.Reqs())
    requires c < b < |h.trace| && h.trace[c] == Commit(id)
    requires forall n :: 0 <= n < |h.trace| && h.trace[n] == Commit(id) ==> n == c
    requires q < |h.trace| && h.trace[q].Fetch? && h.Hit(q).Some?
    requires h.listed(id, h.trace[q].req)
    requires j < |h.trace[q].req.scopes| && |h.trace[q].readAt| == |h.trace[q].req.scopes|
    requires h.trace[b] == Incr(h.trace[q].req.scopes[j]) && b < h.trace[q].readAt[j]
    ensures var e := h.Hit(q).value; var p := e.writer;
            && p < q && h.trace[p].Write? && |h.trace[p].readAt| == |h.trace[p].req.scopes| == |h.trace[q].req.scopes|
            && h.trace[p].readAt[j] < p
            && (id !in e.items <==> h.trace[p].load <= c)
            && (h.Outlasts(p, j) && id !in e.items ==> h.trace[p].load <= c < b < h.trace[p].readAt[j])
  {
    assert h.FollowsProgram(q);
    EarlierEntriesMiss(h, b, q, j);
    HitHasWriter(h, q);
    var w := h.trace[h.Hit(q).value.writer];
    assert h.FollowsProgram(h.Hit(q).value.writer);
    CoreListHas(h, w.load, w.req, id);
    if w.load > c {
      assert h.trace[..w.load][c] == Commit(id);
    }
  }

  // ----- appending commands -----

  ghost predicate Extends(h: History, longer: History) {
    h.sep == longer.sep && h.listed == longer.listed && h.trace <= longer.trace
  }

  lemma {:induction false} PastIsFixed(h: History, longer: History, n: nat)
    requires Extends(h, longer) && n <= |h.trace|
    ensures h.At(n) == longer.At(n)
    ensures forall req :: h.CoreList(n, req) == longer.CoreList(n, req)
  {
    if n > 0 {
      PastIsFixed(h, longer, n - 1);
    }
  }

  lemma PastStaysWellFormed(h: History, longer: History, n: nat)
    requires Extends(h, longer) && h.WellFormed() && n < |h.trace|
    ensures longer.FollowsProgram(n)
  {
    var c := h.trace[n];
    assert h.FollowsProgram(n);
    forall m | 0 <= m <= n ensures h.At(m) == longer.At(m) {
      PastIsFixed(h, longer, m);
    }
    if c.Write? {
      PastIsFixed(h, longer, c.load);
    }
  }

  /** One more command by a client that follows its program. */
  ghost predicate MayAppend(h: History, c: Command) {
    && (c.Write? || c.Fetch? ==> h.ReadsNow(c.req, c.versions, c.readAt))
    && (c.Write? ==> c.load < |h.trace| && h.trace[c.load] == Load(c.req) && c.items == h.CoreList(c.load, c.req)
                     && forall j :: 0 <= j < |c.readAt| ==> c.load < c.readAt[j])
    && (c.Incr? ==> c.scope != NO_SCOPE)
  }

  lemma AppendCommand(h: History, c: Command)
    requires h.WellFormed() && MayAppend(h, c)
    ensures var longer := h.(trace := h.trace + [c]);
            && Extends(h, longer) && longer.WellFormed()
            && longer.At(|h.trace|) == h.At(|h.trace|)
            && longer.At(|h.trace| + 1) == Step(h.sep, h.At(|h.trace|), c, |h.trace|)
  {
    var longer := h.(trace := h.trace + [c]);
    forall m | 0 <= m <= |h.trace| ensures h.At(m) == longer.At(m) {
      PastIsFixed(h, longer, m);
    }
    forall n | 0 <= n < |longer.trace| ensures longer.FollowsProgram(n) {
      if n < |h.trace| {
        PastStaysWellFormed(h, longer, n);
      } else if c.Write? {
        PastIsFixed(h, longer, c.load);
      }
    }
  }

  /** A commit, or a bump's command. */
  predicate Plain(c: Command) {
    c.Commit? || (c.Incr? && c.scope != NO_SCOPE) || c.Expire?
  }

  /** Plain commands take no time and touch no entry. */
  lemma {:induction false} AppendPlain(h: History, commands: seq<Command>)
    requires h.WellFormed() && forall c :: c in commands ==> Plain(c)
    ensures var longer := h.(trace := h.trace + commands);
            && Extends(h, longer) && longer.WellFormed()
            && longer.Now(|longer.trace|) == h.Now(|h.trace|)
            && longer.At(|longer.trace|).entries == h.At(|h.trace|).entries
    decreases |commands|
  {
    var longer := h.(trace := h.trace + commands);
    if |commands| == 0 {
      assert longer.trace == h.trace;
    } else {
      var front, last := commands[..|commands| - 1], commands[|commands| - 1];
      assert commands == front + [last];
      assert Plain(last);
      var before := h.(trace := h.trace + front);
      AppendPlain(h, front);
      AppendCommand(before, last);
      Associative(h.trace, front, [last]);
      assert longer == before.(trace := before.trace + [last]);
    }
  }

  /** One client's commands, in its order, with anything of the others' in between. */
  ghost predicate Scattered(h: History, at: seq<nat>, commands: seq<Command>) {
    && |at| == |commands|
    && (forall i, j :: 0 <= i < j < |at| ==> at[i] < at[j])
    && (forall i :: 0 <= i < |at| ==> at[i] < |h.trace| && h.trace[at[i]] == commands[i])
  }

  function Reads(scopes: seq<Scope>): (commands: seq<Command>)
    ensures |commands| == |scopes|
  {
    seq(|scopes|, i requires 0 <= i < |scopes| => ReadVersion(scopes[i]))
  }

  function VersionsAt(s: Redis, scopes: seq<Scope>): (versions: seq<nat>)
    ensures |versions| == |scopes|
  {
    seq(|scopes|, i requires 0 <= i < |scopes| => VersionOf(s, scopes[i]))
  }

  function Positions(start: nat, count: nat): (positions: seq<nat>)
    ensures |positions| == count
  {
    seq(count, i requires 0 <= i < count => start + i)
  }

  /** One read per scope, in order: nothing changes. */
  lemma {:induction false} AppendReads(h: History, scopes: seq<Scope>)
    requires h.WellFormed()
    ensures var longer := h.(trace := h.trace + Reads(scopes));
            && Extends(h, longer) && longer.WellFormed()
            && forall n :: |h.trace| <= n <= |h.trace| + |scopes| ==> longer.At(n) == h.At(|h.trace|)
    decreases |scopes|
  {
    var longer := h.(trace := h.trace + Reads(scopes));
    if |scopes| == 0 {
      assert longer.trace == h.trace;
    } else {
      var front, last := scopes[..|scopes| - 1], scopes[|scopes| - 1];
      var before := h.(trace := h.trace + Reads(front));
      AppendReads(h, front);
      AppendCommand(before, ReadVersion(last));
      assert Reads(scopes) == Reads(front) + [ReadVersion(last)];
      Associative(h.trace, Reads(front), [ReadVersion(last)]);
      assert longer == before.(trace := before.trace + [ReadVersion(last)]);
      forall n | |h.trace| <= n <= |h.trace| + |scopes| ensures longer.At(n) == h.At(|h.trace|) {
        if n <= |before.trace| {
          PastIsFixed(before, longer, n);
        }
      }
    }
  }

  /** Read every version, then fetch. */
  lemma ReadAndFetch(h: History, req: Request, versions: seq<nat>) returns (longer: History, q: nat)
    requires h.WellFormed() && versions == VersionsAt(h.At(|h.trace|), req.scopes)
    ensures Extends(h, longer) && longer.WellFormed() && longer.Reqs() == h.Reqs() + {req}
    ensures q < |longer.trace| && longer.trace[q] == Fetch(req, versions, Positions(|h.trace|, |req.scopes|))
    ensures longer.At(q) == h.At(|h.trace|)
  {
    var read := h.(trace := h.trace + Reads(req.scopes));
    var fetch := Fetch(req, versions, Positions(|h.trace|, |req.scopes|));
    ReadsAreDone(h, req, versions);
    longer, q := read.(trace := read.trace + [fetch]), |read.trace|;
    AppendCommand(read, fetch);
    OneMoreReq(read, longer, fetch);
  }

  lemma OneMoreReq(h: History, longer: History, fetch: Command)
    requires fetch.Fetch? && longer.trace == h.trace + [fetch]
    ensures longer.Reqs() == h.Reqs() + {fetch.req}
  {
    assert longer.trace[|h.trace|] == fetch;
    assert forall n :: 0 <= n < |h.trace| ==> longer.trace[n] == h.trace[n];
  }

  lemma ReadsAreDone(h: History, req: Request, versions: seq<nat>)
    requires h.WellFormed() && versions == VersionsAt(h.At(|h.trace|), req.scopes)
    ensures var read := h.(trace := h.trace + Reads(req.scopes));
            && Extends(h, read) && read.WellFormed() && read.Reqs() == h.Reqs()
            && read.At(|read.trace|) == h.At(|h.trace|)
            && read.ReadsNow(req, versions, Positions(|h.trace|, |req.scopes|))
  {
    var read := h.(trace := h.trace + Reads(req.scopes));
    AppendReads(h, req.scopes);
    SameReqs(h, read, Reads(req.scopes));
    ReadsWereNow(h, req, versions);
  }

  lemma ReadsWereNow(h: History, req: Request, versions: seq<nat>)
    requires h.WellFormed() && versions == VersionsAt(h.At(|h.trace|), req.scopes)
    ensures h.(trace := h.trace + Reads(req.scopes)).ReadsNow(req, versions, Positions(|h.trace|, |req.scopes|))
  {
    var read, positions := h.(trace := h.trace + Reads(req.scopes)), Positions(|h.trace|, |req.scopes|);
    AppendReads(h, req.scopes);
    forall j | 0 <= j < |positions|
      ensures positions[j] < |read.trace| && read.trace[positions[j]] == ReadVersion(req.scopes[j])
      ensures versions[j] == VersionOf(read.At(positions[j]), req.scopes[j])
    {
      assert read.trace[positions[j]] == Reads(req.scopes)[j];
    }
  }

  /** Commands that neither write nor fetch add no request. */
  lemma SameReqs(h: History, longer: History, added: seq<Command>)
    requires longer.trace == h.trace + added
    requires forall i :: 0 <= i < |added| ==> !added[i].Write? && !added[i].Fetch?
    ensures longer.Reqs() == h.Reqs()
  {
    forall n | |h.trace| <= n < |longer.trace| ensures !longer.trace[n].Write? && !longer.trace[n].Fetch? {
      assert longer.trace[n] == added[n - |h.trace|];
    }
    assert forall n :: 0 <= n < |h.trace| ==> longer.trace[n] == h.trace[n];
  }

  // ----- raising counters -----

  /** Only the versions of `scopes` may differ. */
  ghost predicate SameBut(s: Redis, t: Redis, scopes: seq<Scope>) {
    t.now == s.now && t.entries == s.entries && forall x :: x !in scopes ==> VersionOf(t, x) == VersionOf(s, x)
  }

  lemma IncrRaises(sep: char, s: Redis, scope: Scope, at: nat)
    ensures var t := Step(sep, s, Incr(scope), at);
            SameBut(s, t, [scope]) && VersionOf(t, scope) == VersionOf(s, scope) + 1
  {
  }

  lemma {:induction false} Raise(h: History, scope: Scope, times: nat) returns (longer: History)
    requires h.WellFormed() && scope != NO_SCOPE
    ensures Extends(h, longer) && longer.WellFormed() && longer.Reqs() == h.Reqs()
    ensures var s, t := h.At(|h.trace|), longer.At(|longer.trace|);
            SameBut(s, t, [scope]) && VersionOf(t, scope) == VersionOf(s, scope) + times
  {
    longer := h;
    if times > 0 {
      var before := Raise(h, scope, times - 1);
      longer := before.(trace := before.trace + [Incr(scope)]);
      AppendCommand(before, Incr(scope));
      IncrRaises(h.sep, before.At(|before.trace|), scope, |before.trace|);
      SameReqs(before, longer, [Incr(scope)]);
    }
  }

  lemma ExtendsTwice(a: History, b: History, c: History)
    requires Extends(a, b) && Extends(b, c)
    ensures Extends(a, c)
  {
  }

  lemma {:induction false} CountersAreReal(h: History, n: nat)
    requires h.WellFormed() && n <= |h.trace|
    ensures NO_SCOPE !in h.At(n).counters
  {
    if n > 0 {
      CountersAreReal(h, n - 1);
      assert h.FollowsProgram(n - 1);
    }
  }

  /** No scope is listed twice, but for the one that has no counter. */
  ghost predicate OwnScopes(scopes: seq<Scope>) {
    forall i, k :: 0 <= i < k < |scopes| && scopes[i] == scopes[k] ==> scopes[i] == NO_SCOPE
  }

  /** Each version is the counter's or above it. */
  ghost predicate Ahead(s: Redis, scopes: seq<Scope>, versions: seq<nat>) {
    && |versions| == |scopes|
    && forall i :: 0 <= i < |scopes| ==> VersionOf(s, scopes[i]) <= versions[i]
                                         && (scopes[i] == NO_SCOPE ==> versions[i] == 0)
  }

  ghost predicate Reached(s: Redis, scopes: seq<Scope>, versions: seq<nat>) {
    |versions| == |scopes| && forall i :: 0 <= i < |scopes| ==> VersionOf(s, scopes[i]) == versions[i]
  }

  /** Enough bumps take all of them there. */
  lemma {:induction false} RaiseAll(h: History, scopes: seq<Scope>, versions: seq<nat>) returns (longer: History)
    requires h.WellFormed() && OwnScopes(scopes) && Ahead(h.At(|h.trace|), scopes, versions)
    ensures Extends(h, longer) && longer.WellFormed() && longer.Reqs() == h.Reqs()
    ensures SameBut(h.At(|h.trace|), longer.At(|longer.trace|), scopes)
    ensures Reached(longer.At(|longer.trace|), scopes, versions)
    decreases |scopes|
  {
    longer := h;
    if |scopes| > 0 {
      var n := |scopes| - 1;
      var x := scopes[n];
      assert scopes == scopes[..n] + [x];
      longer := RaiseAll(h, scopes[..n], versions[..n]);
      CountersAreReal(longer, |longer.trace|);
      if x != NO_SCOPE {
        assert x !in scopes[..n];
        longer := RaiseLast(h, longer, scopes, versions);
      }
    }
  }

  lemma RaiseLast(h: History, front: History, scopes: seq<Scope>, versions: seq<nat>) returns (longer: History)
    requires |scopes| > 0 && |versions| == |scopes|
    requires var n := |scopes| - 1;
             && scopes[n] != NO_SCOPE && scopes[n] !in scopes[..n]
             && VersionOf(h.At(|h.trace|), scopes[n]) <= versions[n]
             && Extends(h, front) && front.WellFormed() && front.Reqs() == h.Reqs()
             && SameBut(h.At(|h.trace|), front.At(|front.trace|), scopes[..n])
             && Reached(front.At(|front.trace|), scopes[..n], versions[..n])
    ensures Extends(h, longer) && longer.WellFormed() && longer.Reqs() == h.Reqs()
    ensures SameBut(h.At(|h.trace|), longer.At(|longer.trace|), scopes)
    ensures Reached(longer.At(|longer.trace|), scopes, versions)
  {
    var n := |scopes| - 1;
    longer := Raise(front, scopes[n], versions[n] - VersionOf(h.At(|h.trace|), scopes[n]));
    ExtendsTwice(h, front, longer);
    forall i | 0 <= i < n ensures VersionOf(longer.At(|longer.trace|), scopes[i]) == versions[i] {
      assert scopes[..n][i] == scopes[i] && versions[..n][i] == versions[i] && scopes[i] in scopes[..n];
    }
    assert forall x :: x !in scopes ==> x !in scopes[..n] && x !in [scopes[n]];
  }

  // ----- exactly when an expiring counter lets a stale entry through -----

  /** An entry was just stored, under versions read at any time before. */
  predicate EndsWithWrite(h: History) {
    && |h.trace| > 0
    && var w := h.trace[|h.trace| - 1]; w.Write? && |w.versions| == |w.req.scopes|
  }

  function LastWrite(h: History): (w: Command)
    requires EndsWithWrite(h)
    ensures w.Write? && |w.versions| == |w.req.scopes|
  {
    h.trace[|h.trace| - 1]
  }

  /** When that entry expires. */
  function ExpiryOf(h: History): nat
    requires EndsWithWrite(h)
  {
    h.Now(|h.trace|) + LastWrite(h).ttl
  }

  /** Counter `j` is alive and due to expire before the entry. */
  predicate DueToExpire(h: History, j: nat)
    requires EndsWithWrite(h) && j < |LastWrite(h).req.scopes|
  {
    var s, scope := h.At(|h.trace|), LastWrite(h).req.scopes[j];
    Alive(s, scope) && s.counters[scope].expires.Some? && s.counters[scope].expires.value < ExpiryOf(h)
  }

  /** Counter `j` can show the version in the key once more: it is not past it, or starts again in time. */
  predicate CanReturn(h: History, j: nat)
    requires EndsWithWrite(h) && j < |LastWrite(h).req.scopes|
  {
    VersionOf(h.At(|h.trace|), LastWrite(h).req.scopes[j]) <= LastWrite(h).versions[j] || DueToExpire(h, j)
  }

  /** And that after a bump. It is below the version only if it has expired since it was read. */
  predicate CanReturnBumped(h: History, j: nat)
    requires EndsWithWrite(h) && j < |LastWrite(h).req.scopes|
  {
    VersionOf(h.At(|h.trace|), LastWrite(h).req.scopes[j]) < LastWrite(h).versions[j] || DueToExpire(h, j)
  }

  ghost predicate AllReturn(h: History, j: nat)
    requires EndsWithWrite(h) && j < |LastWrite(h).req.scopes|
  {
    CanReturnBumped(h, j) && forall i :: 0 <= i < |LastWrite(h).req.scopes| ==> CanReturn(h, i)
  }

  /** Later on, the fetch at `q` is served that entry. */
  ghost predicate Served(h: History, longer: History, q: nat)
    requires EndsWithWrite(h)
  {
    && Extends(h, longer) && longer.WellFormed() && AllDistinct(longer.sep, longer.Reqs())
    && q < |longer.trace| && longer.trace[q].Fetch? && longer.Hit(q).Some?
    && longer.Hit(q).value.writer == |h.trace| - 1
    && |longer.trace[q].readAt| == |LastWrite(h).req.scopes|
  }

  /** Its client asked for the version of scope `j` only after that scope had been bumped. */
  ghost predicate Stale(h: History, longer: History, q: nat, j: nat)
    requires EndsWithWrite(h) && j < |LastWrite(h).req.scopes| && Served(h, longer, q)
  {
    !longer.NoBump(LastWrite(h).req.scopes[j], |h.trace|, longer.trace[q].readAt[j])
  }

  /** And it began only after the write. */
  ghost predicate BeganLater(h: History, fetch: Command)
    requires fetch.Fetch?
  {
    forall i :: 0 <= i < |fetch.readAt| ==> fetch.readAt[i] >= |h.trace|
  }

  ghost predicate ServedStale(h: History, longer: History, q: nat, j: nat)
    requires EndsWithWrite(h) && j < |LastWrite(h).req.scopes|
  {
    Served(h, longer, q) && Stale(h, longer, q, j) && BeganLater(h, longer.trace[q])
  }

  /** That can come to happen, whatever requests with keys of their own come meanwhile. */
  ghost predicate CanServeStale(h: History, j: nat)
    requires EndsWithWrite(h) && j < |LastWrite(h).req.scopes|
  {
    exists longer, q :: ServedStale(h, longer, q, j)
  }

  /** A counter that is not due to expire counts every bump until the entry is gone. */
  lemma KeepsCounting(h: History, longer: History, j: nat, r: nat)
    requires EndsWithWrite(h) && j < |LastWrite(h).req.scopes| && LastWrite(h).ttl <= DAY && !DueToExpire(h, j)
    requires Extends(h, longer) && |h.trace| <= r <= |longer.trace| && longer.Now(r) < ExpiryOf(h)
    ensures var scope := LastWrite(h).req.scopes[j];
            VersionOf(longer.At(r), scope) == VersionOf(h.At(|h.trace|), scope) + Bumps(longer, scope, |h.trace|, r)
  {
    PastIsFixed(h, longer, |h.trace|);
    CounterCounts(longer, LastWrite(h).req.scopes[j], |h.trace|, r, ExpiryOf(h));
  }

  lemma ServedVersions(h: History, longer: History, q: nat, j: nat)
    requires EndsWithWrite(h) && j < |LastWrite(h).req.scopes| && Served(h, longer, q)
    ensures var r := longer.trace[q].readAt[j];
            && r < q && longer.Now(r) < ExpiryOf(h)
            && LastWrite(h).versions[j] == VersionOf(longer.At(r), LastWrite(h).req.scopes[j])
  {
    var p := |h.trace| - 1;
    HitHasWriter(longer, q);
    assert longer.trace[p] == LastWrite(h);
    assert longer.FollowsProgram(q);
    PastIsFixed(h, longer, p);
    TimeMoves(longer, longer.trace[q].readAt[j], q);
  }

  /** No reader whatever, whenever it began, is served an entry after a bump unless its counter allows it. */
  lemma StaleNeedsReturn(h: History, longer: History, q: nat, j: nat)
    requires EndsWithWrite(h) && j < |LastWrite(h).req.scopes| && LastWrite(h).ttl <= DAY
    requires Served(h, longer, q) && Stale(h, longer, q, j)
    ensures LastWrite(h).ttl > 0 && CanReturnBumped(h, j)
  {
    var scope, r := LastWrite(h).req.scopes[j], longer.trace[q].readAt[j];
    ServedVersions(h, longer, q, j);
    PastIsFixed(h, longer, |h.trace|);
    TimeMoves(longer, |h.trace|, r);
    if !DueToExpire(h, j) {
      KeepsCounting(h, longer, j, r);
      if Bumps(longer, scope, |h.trace|, r) == 0 {
        NoBumpIfZero(longer, scope, |h.trace|, r);
      }
    }
  }

  lemma LaterNeedsReturn(h: History, longer: History, q: nat, i: nat)
    requires EndsWithWrite(h) && i < |LastWrite(h).req.scopes| && LastWrite(h).ttl <= DAY
    requires Served(h, longer, q) && BeganLater(h, longer.trace[q])
    ensures CanReturn(h, i)
  {
    ServedVersions(h, longer, q, i);
    if !DueToExpire(h, i) {
      KeepsCounting(h, longer, i, longer.trace[q].readAt[i]);
    }
  }

  lemma StaleNeedsAll(h: History, longer: History, q: nat, j: nat)
    requires EndsWithWrite(h) && j < |LastWrite(h).req.scopes| && LastWrite(h).ttl <= DAY
    requires ServedStale(h, longer, q, j)
    ensures LastWrite(h).ttl > 0 && AllReturn(h, j)
  {
    StaleNeedsReturn(h, longer, q, j);
    forall i | 0 <= i < |LastWrite(h).req.scopes| ensures CanReturn(h, i) {
      LaterNeedsReturn(h, longer, q, i);
    }
  }

  /** Bump scope `j`, and wait until the entry has a millisecond left. */
  lemma BumpAndWait(h: History, j: nat) returns (waited: History)
    requires h.WellFormed() && EndsWithWrite(h) && LastWrite(h).ttl > 0
    requires j < |LastWrite(h).req.scopes| && LastWrite(h).req.scopes[j] != NO_SCOPE
    ensures Extends(h, waited) && waited.WellFormed() && waited.Reqs() == h.Reqs()
    ensures |waited.trace| == |h.trace| + 2 && waited.trace[|h.trace|] == Incr(LastWrite(h).req.scopes[j])
    ensures waited.At(|waited.trace|) == Step(h.sep, h.At(|h.trace|), Incr(LastWrite(h).req.scopes[j]), |h.trace|)
                                           .(now := ExpiryOf(h) - 1)
  {
    var bump, tick := Incr(LastWrite(h).req.scopes[j]), Tick(LastWrite(h).ttl - 1);
    var bumped := h.(trace := h.trace + [bump]);
    waited := bumped.(trace := bumped.trace + [tick]);
    AppendCommand(h, bump);
    SameReqs(h, bumped, [bump]);
    AppendCommand(bumped, tick);
    SameReqs(bumped, waited, [tick]);
  }

  /** Of the counters that can return, none is past the key's version then. */
  lemma WaitedIsAhead(sep: char, s: Redis, scope: Scope, at: nat, x: Scope, version: nat, expiry: nat)
    requires s.now < expiry
    requires var due := Alive(s, x) && s.counters[x].expires.Some? && s.counters[x].expires.value < expiry;
             due || (if x == scope then VersionOf(s, x) < version else VersionOf(s, x) <= version)
    ensures VersionOf(Step(sep, s, Incr(scope), at).(now := expiry - 1), x) <= version
  {
  }

  lemma NoScopeHasNoVersion(h: History, j: nat)
    requires h.WellFormed() && EndsWithWrite(h) && j < |LastWrite(h).req.scopes|
    ensures LastWrite(h).req.scopes[j] == NO_SCOPE ==> LastWrite(h).versions[j] == 0 && !CanReturnBumped(h, j)
  {
    var p := |h.trace| - 1;
    assert h.FollowsProgram(p);
    CountersAreReal(h, h.trace[p].readAt[j]);
    CountersAreReal(h, |h.trace|);
  }

  lemma AllAhead(h: History, j: nat) returns (waited: History)
    requires h.WellFormed() && EndsWithWrite(h) && LastWrite(h).ttl > 0 && OwnScopes(LastWrite(h).req.scopes)
    requires j < |LastWrite(h).req.scopes| && AllReturn(h, j)
    ensures Extends(h, waited) && waited.WellFormed() && waited.Reqs() == h.Reqs()
    ensures |h.trace| < |waited.trace| && waited.trace[|h.trace|] == Incr(LastWrite(h).req.scopes[j])
    ensures waited.At(|waited.trace|).entries == h.At(|h.trace|).entries
    ensures waited.At(|waited.trace|).now < ExpiryOf(h)
    ensures Ahead(waited.At(|waited.trace|), LastWrite(h).req.scopes, LastWrite(h).versions)
  {
    var w, s := LastWrite(h), h.At(|h.trace|);
    NoScopeHasNoVersion(h, j);
    waited := BumpAndWait(h, j);
    forall i | 0 <= i < |w.req.scopes|
      ensures VersionOf(waited.At(|waited.trace|), w.req.scopes[i]) <= w.versions[i]
      ensures w.req.scopes[i] == NO_SCOPE ==> w.versions[i] == 0
    {
      NoScopeHasNoVersion(h, i);
      assert CanReturn(h, i);
      WaitedIsAhead(h.sep, s, w.req.scopes[j], |h.trace|, w.req.scopes[i], w.versions[i], ExpiryOf(h));
    }
  }

  lemma WrittenEntry(h: History)
    requires EndsWithWrite(h)
    ensures var w, s := LastWrite(h), h.At(|h.trace|);
            var key := KeyOf(h.sep, w.versions, w.req);
            && w.req in h.Reqs()
            && key in s.entries && s.entries[key] == Entry(w.items, ExpiryOf(h), |h.trace| - 1)
  {
  }

  lemma ReachedIsRead(s: Redis, scopes: seq<Scope>, versions: seq<nat>)
    requires Reached(s, scopes, versions)
    ensures versions == VersionsAt(s, scopes)
  {
  }

  /** Then bring every counter to the version in the key, read and fetch. */
  lemma FetchStale(h: History, back: History, w: Command, j: nat)
    requires EndsWithWrite(h) && w == LastWrite(h) && j < |w.req.scopes| && AllDistinct(h.sep, h.Reqs())
    requires Extends(h, back) && back.WellFormed() && back.Reqs() == h.Reqs()
    requires |h.trace| < |back.trace| && back.trace[|h.trace|] == Incr(w.req.scopes[j])
    requires var s := back.At(|back.trace|);
             s.entries == h.At(|h.trace|).entries && s.now < ExpiryOf(h) && Reached(s, w.req.scopes, w.versions)
    ensures CanServeStale(h, j)
  {
    WrittenEntry(h);
    ReachedIsRead(back.At(|back.trace|), w.req.scopes, w.versions);
    var longer, q := ReadAndFetch(back, w.req, w.versions);
    ExtendsTwice(h, back, longer);
    assert longer.Reqs() == h.Reqs();
    assert longer.trace[|h.trace|] == Incr(w.req.scopes[j]);
    assert ServedStale(h, longer, q, j);
  }

  lemma ReturnServesStale(h: History, j: nat)
    requires h.WellFormed() && AllDistinct(h.sep, h.Reqs()) && EndsWithWrite(h) && LastWrite(h).ttl > 0
    requires OwnScopes(LastWrite(h).req.scopes) && j < |LastWrite(h).req.scopes| && AllReturn(h, j)
    ensures CanServeStale(h, j)
  {
    var w := LastWrite(h);
    var waited := AllAhead(h, j);
    var back := RaiseAll(waited, w.req.scopes, w.versions);
    ExtendsTwice(h, waited, back);
    assert back.trace[|h.trace|] == waited.trace[|h.trace|];
    FetchStale(h, back, w, j);
  }

  /** An entry of at most 24 hours, stored under versions read whenever: a client that begins later can be
      served it after a bump of scope `j` if and only if counter `j` has fallen below the version in the key
      or is due to expire before the entry, and each other counter is not above its version or is due too. */
  lemma ExpiryIsExact(h: History, j: nat)
    requires h.WellFormed() && AllDistinct(h.sep, h.Reqs()) && EndsWithWrite(h)
    requires j < |LastWrite(h).req.scopes| && LastWrite(h).ttl <= DAY && OwnScopes(LastWrite(h).req.scopes)
    ensures CanServeStale(h, j) <==> LastWrite(h).ttl > 0 && AllReturn(h, j)
  {
    if LastWrite(h).ttl > 0 && AllReturn(h, j) {
      ReturnServesStale(h, j);
    }
    forall longer, q | ServedStale(h, longer, q, j) ensures LastWrite(h).ttl > 0 && AllReturn(h, j) {
      StaleNeedsAll(h, longer, q, j);
    }
  }
}
