/** One client at work against Core and Redis: its commands are appended to the shared history. */
module RedisClient {
  import opened Text
  import opened VersionedCache
  import opened RedisTimeline

  function Then(h: History, c: Command): History {
    h.(trace := h.trace + [c])
  }

  function End(h: History): nat { |h.trace| }

  /** The state all commands so far have led to. */
  function Now(h: History): Redis { h.At(|h.trace|) }

  lemma ThenRuns(h: History, c: Command)
    requires h.WellFormed() && MayAppend(h, c)
    ensures Then(h, c).WellFormed() && Extends(h, Then(h, c)) && End(Then(h, c)) == End(h) + 1
    ensures Now(Then(h, c)) == Step(h.sep, Now(h), c, End(h))
  {
    AppendCommand(h, c);
  }

  /** What the last command, a fetch, was answered. */
  function LastReply(h: History): Option<seq<nat>>
    requires |h.trace| > 0 && h.trace[|h.trace| - 1].Fetch?
  {
    var hit := h.Hit(|h.trace| - 1);
    if hit.Some? then Some(hit.value.items) else None
  }

  // ----- histories of single calls -----

  function AfterReads(h: History, scopes: seq<Scope>): History {
    h.(trace := h.trace + Reads(scopes))
  }

  function AfterGet(h: History, req: Request): History {
    Then(AfterReads(h, req.scopes), Fetch(req, VersionsAt(Now(h), req.scopes), Positions(End(h), |req.scopes|)))
  }

  /** `load` is where in the history the list was read from Core. */
  function WriteOf(h: History, req: Request, load: nat, ttl: nat, items: seq<nat>): Command {
    Write(req, VersionsAt(Now(h), req.scopes), Positions(End(h), |req.scopes|), load, ttl, items)
  }

  function AfterSet(h: History, req: Request, load: nat, ttl: nat, items: seq<nat>): History {
    Then(AfterReads(h, req.scopes), WriteOf(h, req, load, ttl, items))
  }

  ghost predicate WasLoaded(h: History, req: Request, load: nat, items: seq<nat>) {
    load < End(h) && h.trace[load] == Load(req) && items == h.CoreList(load, req)
  }

  /** A list loaded before the version reads may be written under them. */
  lemma LoadedBeforeRead(h: History, req: Request, load: nat, ttl: nat, items: seq<nat>)
    requires h.WellFormed() && WasLoaded(h, req, load, items)
    ensures MayAppend(AfterReads(h, req.scopes), WriteOf(h, req, load, ttl, items))
  {
    ReadsAreDone(h, req, VersionsAt(Now(h), req.scopes));
    PastIsFixed(h, AfterReads(h, req.scopes), load);
  }

  lemma ReadsRun(h: History, scopes: seq<Scope>)
    requires h.WellFormed()
    ensures var read := AfterReads(h, scopes);
            Extends(h, read) && read.WellFormed() && Now(read) == Now(h) && End(read) == End(h) + |scopes|
  {
    AppendReads(h, scopes);
  }

  lemma ThenMore(h: History, read: History, c: Command)
    requires Extends(h, read) && read.WellFormed() && MayAppend(read, c)
    ensures Extends(h, Then(read, c)) && Then(read, c).WellFormed()
    ensures Now(Then(read, c)) == Step(h.sep, Now(read), c, End(read))
  {
    ThenRuns(read, c);
  }

  lemma WriteRuns(h: History, req: Request, load: nat, ttl: nat, items: seq<nat>)
    requires h.WellFormed() && WasLoaded(h, req, load, items)
    ensures var stored, read := AfterSet(h, req, load, ttl, items), AfterReads(h, req.scopes);
            && Extends(h, stored) && stored.WellFormed()
            && Now(stored) == Step(h.sep, Now(read), WriteOf(h, req, load, ttl, items), End(read))
  {
    LoadedBeforeRead(h, req, load, ttl, items);
    ReadsRun(h, req.scopes);
    ThenMore(h, AfterReads(h, req.scopes), WriteOf(h, req, load, ttl, items));
  }

  lemma StoredState(h: History, req: Request, load: nat, ttl: nat, items: seq<nat>)
    requires h.WellFormed() && WasLoaded(h, req, load, items)
    ensures var stored, key := AfterSet(h, req, load, ttl, items), KeyOf(h.sep, VersionsAt(Now(h), req.scopes), req);
            && Extends(h, stored) && stored.WellFormed()
            && Now(stored) == Now(h).(entries :=
                 Now(h).entries[key := Entry(items, Now(h).now + ttl, End(h) + |req.scopes|)])
  {
    WriteRuns(h, req, load, ttl, items);
    ReadsRun(h, req.scopes);
  }

  lemma GetFinds(h: History, req: Request)
    requires h.WellFormed()
    ensures var asked, key := AfterGet(h, req), KeyOf(h.sep, VersionsAt(Now(h), req.scopes), req);
            && Extends(h, asked) && asked.WellFormed()
            && LastReply(asked) == if key in Now(h).entries && Now(h).now < Now(h).entries[key].expires
                                   then Some(Now(h).entries[key].items) else None
  {
    var versions := VersionsAt(Now(h), req.scopes);
    var fetch := Fetch(req, versions, Positions(End(h), |req.scopes|));
    ReadsAreDone(h, req, versions);
    AppendCommand(AfterReads(h, req.scopes), fetch);
    var asked := AfterGet(h, req);
    assert asked.trace[End(asked) - 1] == fetch;
  }

  /** What a reader stores is what the next reader is served. */
  lemma SetThenGet(h: History, req: Request, load: nat, ttl: nat, items: seq<nat>)
    requires h.WellFormed() && WasLoaded(h, req, load, items) && ttl > 0
    ensures var stored := AfterSet(h, req, load, ttl, items); var asked := AfterGet(stored, req);
            && Extends(h, asked) && asked.WellFormed() && LastReply(asked) == Some(items)
  {
    var stored := AfterSet(h, req, load, ttl, items);
    StoredState(h, req, load, ttl, items);
    GetFinds(stored, req);
    SameVersions(Now(stored), Now(h), req.scopes);
    ExtendsTwice(h, stored, AfterGet(stored, req));
  }

  lemma SameVersions(t: Redis, s: Redis, scopes: seq<Scope>)
    requires t.now == s.now && t.counters == s.counters
    ensures VersionsAt(t, scopes) == VersionsAt(s, scopes)
  {
  }

  // ----- cache-aside reads -----

  datatype CoreError = CoreUnavailable

  /** Core fails, answers with nothing (a JSON `null`), or answers with what it lists. */
  datatype CoreAnswer = Fails | AnswersNull | Lists

  /** One undisturbed read: the history it leaves and what it returns. `cached` says whether the request may
      be answered from the cache and stored there. */
  function ReadRun(h: History, req: Request, cached: bool, ttl: nat, core: CoreAnswer)
    : (History, Result<Option<seq<nat>>, CoreError>)
  {
    var asked := if cached then AfterGet(h, req) else h;
    var hit := if cached then LastReply(asked) else None;
    if hit.Some? then (asked, Ok(hit))
    else
      match core
      case Fails => (asked, Err(CoreUnavailable))
      case AnswersNull => (asked, Ok(None))
      case Lists =>
        var items, loaded := asked.CoreList(End(asked), req), Then(asked, Load(req));
        (if cached then AfterSet(loaded, req, End(asked), ttl, items) else loaded, Ok(Some(items)))
  }

  /** Where a read that asks the cache fetches: after one version read per scope. */
  function FetchAt(h: History, req: Request): nat { End(h) + |req.scopes| }

  /** The read that led from `h` to `after` was answered by the cache. */
  predicate ServedFromCache(h: History, after: History, req: Request, cached: bool) {
    && cached && FetchAt(h, req) < End(after) && after.trace[FetchAt(h, req)].Fetch?
    && after.Hit(FetchAt(h, req)).Some?
  }

  /** `c` carries the versions of all scopes, read one after the other from position `at` on. */
  ghost predicate ReadFrom(h: History, c: Command, at: nat)
    requires c.Write? || c.Fetch?
  {
    && |c.readAt| == |c.versions| == |c.req.scopes|
    && forall j :: 0 <= j < |c.readAt| ==>
         && c.readAt[j] == at + j && at + j < End(h) && h.trace[at + j] == ReadVersion(c.req.scopes[j])
         && c.versions[j] == VersionOf(h.At(at + j), c.req.scopes[j])
  }

  /** The read asked the cache first, under versions it had just read, if it was allowed to. */
  ghost predicate AskedFirst(h: History, after: History, req: Request, cached: bool) {
    && Extends(h, after) && after.WellFormed()
    && (cached ==> FetchAt(h, req) < End(after) && after.trace[FetchAt(h, req)].Fetch?
                   && after.trace[FetchAt(h, req)].req == req
                   && ReadFrom(after, after.trace[FetchAt(h, req)], End(h)))
  }

  /** It then loaded the list from Core at `load`, returned exactly that, and stored exactly that under versions
      it read after the load. */
  ghost predicate LoadedAndStored(after: History, req: Request, cached: bool, ttl: nat, load: nat, items: seq<nat>) {
    && load < End(after) && after.trace[load] == Load(req) && items == after.CoreList(load, req)
    && End(after) == load + 1 + (if cached then |req.scopes| + 1 else 0)
    && (cached ==>
          var w := after.trace[End(after) - 1];
          && w.Write? && w.req == req && w.items == items && w.ttl == ttl && w.load == load
          && ReadFrom(after, w, load + 1))
  }

  lemma GetReads(h: History, req: Request)
    requires h.WellFormed()
    ensures FetchAt(h, req) < End(AfterGet(h, req))
    ensures var c := AfterGet(h, req).trace[FetchAt(h, req)];
            c.Fetch? && c.req == req && ReadFrom(AfterGet(h, req), c, End(h))
  {
    AppendReads(h, req.scopes);
    ReadsAreAt(h, AfterReads(h, req.scopes), AfterGet(h, req), AfterGet(h, req).trace[FetchAt(h, req)]);
  }

  lemma ReplyIsHit(h: History, req: Request)
    ensures LastReply(AfterGet(h, req))
            == if AfterGet(h, req).Hit(FetchAt(h, req)).Some?
               then Some(AfterGet(h, req).Hit(FetchAt(h, req)).value.items) else None
  {
    assert End(AfterGet(h, req)) - 1 == FetchAt(h, req);
  }

  lemma GetExtends(h: History, req: Request)
    requires h.WellFormed()
    ensures Extends(h, AfterGet(h, req)) && AfterGet(h, req).WellFormed()
    ensures End(AfterGet(h, req)) == FetchAt(h, req) + 1
  {
    GetFinds(h, req);
  }

  lemma AskAppends(h: History, req: Request)
    requires h.WellFormed()
    ensures AskedFirst(h, AfterGet(h, req), req, true) && End(AfterGet(h, req)) == FetchAt(h, req) + 1
    ensures LastReply(AfterGet(h, req))
            == if AfterGet(h, req).Hit(FetchAt(h, req)).Some?
               then Some(AfterGet(h, req).Hit(FetchAt(h, req)).value.items) else None
  {
    GetExtends(h, req);
    GetReads(h, req);
    ReplyIsHit(h, req);
  }

  lemma ReadsAreAt(h: History, read: History, longer: History, c: Command)
    requires c.Write? || c.Fetch?
    requires read == AfterReads(h, c.req.scopes) && Extends(read, longer)
    requires forall n :: End(h) <= n <= End(read) ==> read.At(n) == Now(h)
    requires c.versions == VersionsAt(Now(h), c.req.scopes) && c.readAt == Positions(End(h), |c.req.scopes|)
    ensures ReadFrom(longer, c, End(h))
  {
    forall j | 0 <= j < |c.req.scopes|
      ensures longer.trace[End(h) + j] == ReadVersion(c.req.scopes[j]) && longer.At(End(h) + j) == Now(h)
    {
      ReadIsAt(h, c.req.scopes, longer, j);
    }
  }

  lemma ReadIsAt(h: History, scopes: seq<Scope>, longer: History, j: nat)
    requires j < |scopes| && Extends(AfterReads(h, scopes), longer)
    ensures End(h) + j < End(longer) && longer.trace[End(h) + j] == ReadVersion(scopes[j])
    ensures longer.At(End(h) + j) == AfterReads(h, scopes).At(End(h) + j)
  {
    assert AfterReads(h, scopes).trace[End(h) + j] == Reads(scopes)[j];
    PastIsFixed(AfterReads(h, scopes), longer, End(h) + j);
  }

  lemma LoadAppends(h: History, req: Request, ttl: nat)
    requires h.WellFormed()
    ensures var loaded, items := Then(h, Load(req)), h.CoreList(End(h), req);
            && LoadedAndStored(loaded, req, false, ttl, End(h), items) && WasLoaded(loaded, req, End(h), items)
            && Extends(h, loaded) && loaded.WellFormed()
  {
    ThenRuns(h, Load(req));
    PastIsFixed(h, Then(h, Load(req)), End(h));
  }

  lemma WriteAppends(loaded: History, req: Request, load: nat, ttl: nat, items: seq<nat>)
    requires loaded.WellFormed() && WasLoaded(loaded, req, load, items) && End(loaded) == load + 1
    ensures var stored := AfterSet(loaded, req, load, ttl, items);
            LoadedAndStored(stored, req, true, ttl, load, items) && Extends(loaded, stored) && stored.WellFormed()
  {
    var stored := AfterSet(loaded, req, load, ttl, items);
    WriteRuns(loaded, req, load, ttl, items);
    AppendReads(loaded, req.scopes);
    PastIsFixed(loaded, stored, load);
    assert stored.trace[End(stored) - 1] == WriteOf(loaded, req, load, ttl, items);
    ReadsAreAt(loaded, AfterReads(loaded, req.scopes), stored, stored.trace[End(stored) - 1]);
  }

  lemma StoreAppends(h: History, req: Request, ttl: nat)
    requires h.WellFormed()
    ensures var loaded := Then(h, Load(req)); var items := h.CoreList(End(h), req);
            var stored := AfterSet(loaded, req, End(h), ttl, items);
            && LoadedAndStored(loaded, req, false, ttl, End(h), items) && Extends(h, loaded) && loaded.WellFormed()
            && LoadedAndStored(stored, req, true, ttl, End(h), items) && Extends(h, stored) && stored.WellFormed()
  {
    var loaded, items := Then(h, Load(req)), h.CoreList(End(h), req);
    LoadAppends(h, req, ttl);
    WriteAppends(loaded, req, End(h), ttl, items);
    ExtendsTwice(h, loaded, AfterSet(loaded, req, End(h), ttl, items));
  }

  /** What a read does and answers. It asks the cache first if it may. A hit is answered with the entry's items
      and nothing more is done. Otherwise Core is asked: it fails, and so does the read; it answers null, and
      so does the read; or it lists, and the read returns that list and, if it may, stores it. */
  lemma ReadAnswers(h: History, req: Request, cached: bool, ttl: nat, core: CoreAnswer)
    requires h.WellFormed()
    ensures var (after, result) := ReadRun(h, req, cached, ttl, core);
            var hit := ServedFromCache(h, after, req, cached);
            var asked := if cached then FetchAt(h, req) + 1 else End(h);
            && AskedFirst(h, after, req, cached)
            && (hit ==> result == Ok(Some(after.Hit(FetchAt(h, req)).value.items)) && End(after) == asked)
            && (result.Err? <==> !hit && core.Fails?)
            && (result == Ok(None) <==> !hit && core.AnswersNull?)
            && (!hit && !core.Lists? ==> End(after) == asked)
            && (!hit && core.Lists? ==> result.Ok? && result.value.Some?
                                        && LoadedAndStored(after, req, cached, ttl, asked, result.value.value))
  {
    var (after, result) := ReadRun(h, req, cached, ttl, core);
    var asked := if cached then AfterGet(h, req) else h;
    if cached {
      AskAppends(h, req);
    }
    StoreAppends(asked, req, ttl);
    if cached {
      AskStays(h, asked, after, req);
    }
  }

  lemma AskStays(h: History, asked: History, after: History, req: Request)
    requires AskedFirst(h, asked, req, true) && End(asked) == FetchAt(h, req) + 1
    requires Extends(asked, after) && after.WellFormed()
    ensures AskedFirst(h, after, req, true) && after.Hit(FetchAt(h, req)) == asked.Hit(FetchAt(h, req))
  {
    var q := FetchAt(h, req);
    PastIsFixed(asked, after, q);
    forall n | 0 <= n <= q ensures after.At(n) == asked.At(n) {
      PastIsFixed(asked, after, n);
    }
  }

  lemma ServedExactly(h: History, req: Request, cached: bool, ttl: nat, core: CoreAnswer)
    requires h.WellFormed()
    ensures ServedFromCache(h, ReadRun(h, req, cached, ttl, core).0, req, cached) <==>
            cached && LastReply(AfterGet(h, req)).Some?
  {
    if cached {
      var after := ReadRun(h, req, cached, ttl, core).0;
      AskAppends(h, req);
      StoreAppends(AfterGet(h, req), req, ttl);
      AskStays(h, AfterGet(h, req), after, req);
    }
  }

  /** What a hit is answered with was loaded from Core and stored by an earlier read of the same request, less
      than that entry's TTL ago. */
  lemma HitIsEarlierList(h: History, req: Request, cached: bool, ttl: nat, core: CoreAnswer)
    requires h.WellFormed()
    requires var after := ReadRun(h, req, cached, ttl, core).0;
             AllDistinct(after.sep, after.Reqs()) && ServedFromCache(h, after, req, cached)
    ensures var (after, result) := ReadRun(h, req, cached, ttl, core);
            exists p :: 0 <= p < FetchAt(h, req) && after.trace[p].Write? && after.trace[p].req == req
                        && result == Ok(Some(after.trace[p].items)) && after.trace[p].load < p
                        && after.trace[p].items == after.CoreList(after.trace[p].load, req)
                        && after.Now(FetchAt(h, req)) < after.Now(p) + after.trace[p].ttl
  {
    var after := ReadRun(h, req, cached, ttl, core).0;
    ReadAnswers(h, req, cached, ttl, core);
    HitHasWriter(after, FetchAt(h, req));
    assert after.FollowsProgram(after.Hit(FetchAt(h, req)).value.writer);
  }

  lemma StoredServes(h: History, req: Request, load: nat, ttl: nat, items: seq<nat>, wait: nat)
    requires h.WellFormed() && WasLoaded(h, req, load, items) && wait < ttl
    requires var waited := Then(AfterSet(h, req, load, ttl, items), Tick(wait));
             VersionsAt(Now(waited), req.scopes) == VersionsAt(Now(h), req.scopes)
    ensures var waited := Then(AfterSet(h, req, load, ttl, items), Tick(wait));
            waited.WellFormed() && LastReply(AfterGet(waited, req)) == Some(items)
  {
    var stored := AfterSet(h, req, load, ttl, items);
    StoredState(h, req, load, ttl, items);
    ThenRuns(stored, Tick(wait));
    GetFinds(Then(stored, Tick(wait)), req);
  }

  lemma MissStores(h: History, req: Request, ttl: nat)
    requires h.WellFormed() && !ServedFromCache(h, ReadRun(h, req, true, ttl, Lists).0, req, true)
    ensures var asked := AfterGet(h, req); var loaded := Then(asked, Load(req));
            var items := asked.CoreList(End(asked), req);
            && ReadRun(h, req, true, ttl, Lists) == (AfterSet(loaded, req, End(asked), ttl, items), Ok(Some(items)))
            && loaded.WellFormed() && WasLoaded(loaded, req, End(asked), items) && Now(loaded) == Now(h)
  {
    var asked := AfterGet(h, req);
    AskAppends(h, req);
    AskKeepsNow(h, req);
    ThenRuns(asked, Load(req));
    PastIsFixed(asked, Then(asked, Load(req)), End(asked));
  }

  /** A list that was just stored is what the next read returns, however much later, as long as its TTL has not
      passed and no counter has expired meanwhile. */
  lemma ReadTwice(h: History, req: Request, ttl: nat, wait: nat, core: CoreAnswer)
    requires h.WellFormed() && wait < ttl
    requires !ServedFromCache(h, ReadRun(h, req, true, ttl, Lists).0, req, true)
    requires var waited := Then(ReadRun(h, req, true, ttl, Lists).0, Tick(wait));
             VersionsAt(Now(waited), req.scopes) == VersionsAt(Now(h), req.scopes)
    ensures var (after, first) := ReadRun(h, req, true, ttl, Lists);
            ReadRun(Then(after, Tick(wait)), req, true, ttl, core).1 == first
  {
    var asked := AfterGet(h, req);
    MissStores(h, req, ttl);
    StoredServes(Then(asked, Load(req)), req, End(asked), ttl, asked.CoreList(End(asked), req), wait);
  }

  lemma AskKeepsNow(h: History, req: Request)
    requires h.WellFormed()
    ensures Now(AfterGet(h, req)) == Now(h) && AfterGet(h, req).WellFormed()
  {
    var fetch := Fetch(req, VersionsAt(Now(h), req.scopes), Positions(End(h), |req.scopes|));
    ReadsAreDone(h, req, VersionsAt(Now(h), req.scopes));
    ReadsRun(h, req.scopes);
    FetchChangesNothing(h, AfterReads(h, req.scopes), fetch);
  }

  lemma FetchChangesNothing(h: History, read: History, fetch: Command)
    requires Extends(h, read) && read.WellFormed() && MayAppend(read, fetch) && fetch.Fetch?
    ensures Then(read, fetch).WellFormed() && Now(Then(read, fetch)) == Now(read)
  {
    ThenMore(h, read, fetch);
  }

  // ----- a client at work -----

  class World {
    var history: History

    constructor (history: History)
      ensures this.history == history
    {
      this.history := history;
    }

    method Do(c: Command)
      requires history.WellFormed() && MayAppend(history, c)
      modifies this
      ensures history == Then(old(history), c) && history.WellFormed()
      ensures Now(history) == Step(history.sep, Now(old(history)), c, End(old(history)))
    {
      AppendCommand(history, c);
      history := Then(history, c);
    }

    method Version(scope: Scope) returns (version: nat)
      requires history.WellFormed()
      modifies this
      ensures history == Then(old(history), ReadVersion(scope)) && history.WellFormed()
      ensures Now(history) == Now(old(history)) && version == VersionOf(Now(old(history)), scope)
    {
      Do(ReadVersion(scope));
      version := VersionOf(Now(history), scope);
    }

    /** `INCR`, then `EXPIRE` for 24 hours. */
    method BumpScope(scope: Scope)
      requires history.WellFormed() && scope != NO_SCOPE
      modifies this
      ensures history == Then(Then(old(history), Incr(scope)), Expire(scope)) && history.WellFormed()
    {
      Do(Incr(scope));
      Do(Expire(scope));
    }

    method GetEntry(req: Request, versions: seq<nat>, readAt: seq<nat>) returns (items: Option<seq<nat>>)
      requires history.WellFormed() && history.ReadsNow(req, versions, readAt)
      modifies this
      ensures history == Then(old(history), Fetch(req, versions, readAt)) && history.WellFormed()
      ensures Now(history) == Now(old(history)) && items == LastReply(history)
    {
      AppendCommand(history, Fetch(req, versions, readAt));
      Do(Fetch(req, versions, readAt));
      items := LastReply(history);
    }

    method ListFromCore(req: Request) returns (items: seq<nat>)
      requires history.WellFormed()
      modifies this
      ensures history == Then(old(history), Load(req)) && history.WellFormed()
      ensures Now(history) == Now(old(history)) && WasLoaded(history, req, End(old(history)), items)
      ensures items == old(history).CoreList(End(old(history)), req)
    {
      PastIsFixed(history, Then(history, Load(req)), |history.trace|);
      items := history.CoreList(|history.trace|, req);
      Do(Load(req));
    }
  }
}
