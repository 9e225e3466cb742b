/** Cache-aside reads and invalidating marks of notifications, command by command. */
module NotificationUsecase {
  import opened Text
  import opened Values
  import opened VersionedCache
  import opened RedisTimeline
  import opened RedisClient
  import opened RedisKeys
  import A = ActivityCache
  import N = NotificationCache

  /** First-page polls without date or cursor filters. */
  predicate CacheableListPage(state: string, fromDate: string, toDate: string, beforeAt: string, beforeID: string) {
    && TrimSpace(beforeAt) == "" && TrimSpace(beforeID) == ""
    && TrimSpace(fromDate) == "" && TrimSpace(toDate) == ""
    && TrimSpace(state) in ["", "all", "unread", "read"]
  }

  /** Without both a tenant and an email the cache neither answers, stores nor invalidates. */
  predicate Known(tenant: string, email: string) {
    TrimSpace(tenant) != "" && A.NormalizeEmail(email) != ""
  }

  /** Cacheable is a page without cursor and dates, of any of the four usual states. */
  lemma CacheableListPageExactly(state: string, fromDate: string, toDate: string, beforeAt: string, beforeID: string)
    ensures CacheableListPage(state, fromDate, toDate, beforeAt, beforeID) <==>
            && Blank(beforeAt) && Blank(beforeID) && Blank(fromDate) && Blank(toDate)
            && (Blank(state) || TrimSpace(state) == "all" || TrimSpace(state) == "unread" || TrimSpace(state) == "read")
  {
    BlankIsEmpty(beforeAt);
    BlankIsEmpty(beforeID);
    BlankIsEmpty(fromDate);
    BlankIsEmpty(toDate);
    BlankIsEmpty(state);
  }

  /** A user is known by a tenant and an email that are more than spaces. */
  lemma KnownExactly(tenant: string, email: string)
    ensures Known(tenant, email) <==> !Blank(tenant) && !Blank(email)
  {
    BlankIsEmpty(tenant);
    BlankIsEmpty(email);
    assert |A.NormalizeEmail(email)| == |TrimSpace(email)|;
  }

  // ----- unread counts -----

  /** `unreadCountFromCore`. */
  function UnreadCountFromCore(answer: Option<seq<Field>>): int {
    if answer == None then 0 else NumberField(answer.value, "count")
  }

  /** A missing answer counts nothing; otherwise the field `count` does, as a whole number. */
  lemma UnreadCountMeans(answer: Option<seq<Field>>)
    ensures answer == None ==> UnreadCountFromCore(answer) == 0
    ensures answer.Some? ==>
              && (forall i :: Lookup(answer.value, "count") == Some(Int(i)) ==> UnreadCountFromCore(answer) == i)
              && (forall x :: Lookup(answer.value, "count") == Some(Float(x)) ==>
                    var n, p := UnreadCountFromCore(answer), PowerOfTwo(x.scale); TruncatedQuotient(x.m, p, n, n * p))
  {
    if answer.Some? {
      NumberFieldExactly(answer.value, "count");
      forall x | Lookup(answer.value, "count") == Some(Float(x))
        ensures UnreadCountFromCore(answer) == Truncated(x)
        ensures TruncatedQuotient(x.m, PowerOfTwo(x.scale), Truncated(x), Truncated(x) * PowerOfTwo(x.scale))
      {
        TruncatedExactly(x);
      }
    }
  }

  /** What a cached count is handed out as. */
  function CountAnswer(count: int): Option<seq<Field>> {
    Some([Field("count", Int(count))])
  }

  /** A hit is answered with the count that Core's own answer holds: storing it as a decimal text and
      reading that back loses nothing. */
  lemma CachedCountIsCores(answer: Option<seq<Field>>)
    requires IsInt64(UnreadCountFromCore(answer))
    ensures var count := Atoi(Decimal(UnreadCountFromCore(answer)));
            count.Some? && UnreadCountFromCore(CountAnswer(count.value)) == UnreadCountFromCore(answer)
  {
    AtoiDecimal(UnreadCountFromCore(answer));
  }

  // ----- commands of a write -----

  function MarkCommands(tenant: string, email: string, id: nat, coreOk: bool): seq<Command> {
    if !coreOk then []
    else if !Known(tenant, email) then [Commit(id)]
    else [Commit(id), Incr(UserScope(tenant, email)), Expire(UserScope(tenant, email))]
  }

  /** A mark that Core refuses touches nothing; otherwise it commits, and for a known user it bumps their counter
      and gives it a new 24 hours. */
  lemma MarkCommitsThenBumps(tenant: string, email: string, id: nat, coreOk: bool)
    ensures var commands := MarkCommands(tenant, email, id, coreOk);
            && (!coreOk ==> |commands| == 0)
            && (coreOk ==> |commands| > 0 && commands[0] == Commit(id))
            && (coreOk ==> (Incr(UserScope(tenant, email)) in commands <==> !Blank(tenant) && !Blank(email)))
            && (forall k :: 0 < k < |commands| ==> commands[k].Incr? || commands[k].Expire?)
            && (forall k :: 0 <= k < |commands| && commands[k].Incr? ==>
                  commands[k].scope == UserScope(tenant, email)
                  && k + 1 < |commands| && commands[k + 1] == Expire(commands[k].scope))
  {
    KnownExactly(tenant, email);
    var commands := MarkCommands(tenant, email, id, coreOk);
    if coreOk && Known(tenant, email) {
      assert commands[1] == Incr(UserScope(tenant, email));
    }
  }

  class NotificationsUsecase {
    constructor () {
    }

    method Get(w: World, req: Request) returns (items: Option<seq<nat>>)
      requires w.history.WellFormed() && |req.scopes| == 1
      modifies w
      ensures w.history == AfterGet(old(w.history), req) && w.history.WellFormed()
      ensures items == LastReply(w.history)
    {
      ReadsAreDone(w.history, req, VersionsAt(Now(w.history), req.scopes));
      assert Reads(req.scopes) == [ReadVersion(req.scopes[0])];
      var start := End(w.history);
      var version := w.Version(req.scopes[0]);
      assert [version] == VersionsAt(Now(old(w.history)), req.scopes);
      items := w.GetEntry(req, [version], Positions(start, 1));
    }

    method Set(w: World, req: Request, load: nat, ttl: nat, items: seq<nat>)
      requires w.history.WellFormed() && |req.scopes| == 1 && WasLoaded(w.history, req, load, items)
      modifies w
      ensures w.history == AfterSet(old(w.history), req, load, ttl, items) && w.history.WellFormed()
    {
      LoadedBeforeRead(w.history, req, load, ttl, items);
      assert Reads(req.scopes) == [ReadVersion(req.scopes[0])];
      var start := End(w.history);
      var version := w.Version(req.scopes[0]);
      assert [version] == VersionsAt(Now(old(w.history)), req.scopes);
      w.Do(Write(req, [version], Positions(start, 1), load, ttl, items));
    }

    method Read(w: World, req: Request, cached: bool, ttl: nat, core: CoreAnswer)
      returns (result: Result<Option<seq<nat>>, CoreError>, fromCache: bool)
      requires w.history.WellFormed() && |req.scopes| == 1
      modifies w
      ensures w.history.WellFormed()
      ensures (w.history, result) == ReadRun(old(w.history), req, cached, ttl, core)
      ensures fromCache == ServedFromCache(old(w.history), w.history, req, cached)
      ensures core.Lists? ==> result.Ok? && result.value.Some?
    {
      ServedExactly(w.history, req, cached, ttl, core);
      if cached {
        var hit := Get(w, req);
        if hit.Some? {
          return Ok(hit), true;
        }
      }
      match core {
        case Fails => return Err(CoreUnavailable), false;
        case AnswersNull => return Ok(None), false;
        case Lists =>
          var load := End(w.history);
          var items := w.ListFromCore(req);
          if cached {
            Set(w, req, load, ttl, items);
          }
          return Ok(Some(items)), false;
      }
    }

    method ListNotifications(w: World, q: N.PageQuery, fromDate: string, toDate: string, beforeAt: string,
                             beforeID: string, core: CoreAnswer)
      returns (result: Result<Option<seq<nat>>, CoreError>)
      requires w.history.WellFormed()
      modifies w
      ensures w.history.WellFormed()
      ensures var cached := CacheableListPage(q.state, fromDate, toDate, beforeAt, beforeID)
                            && Known(q.tenant, q.email);
              (w.history, result) == ReadRun(old(w.history), PageRequest(q), cached, PAGE_TTL, core)
    {
      var cached := CacheableListPage(q.state, fromDate, toDate, beforeAt, beforeID) && Known(q.tenant, q.email);
      var fromCache: bool;
      result, fromCache := Read(w, PageRequest(q), cached, PAGE_TTL, core);
    }

    /** `answer` is what Core answers when it counts with these changes made. A miss hands Core's answer
        on as it is; a hit gives the count alone. */
    method UnreadCount(w: World, tenant: string, email: string, answer: seq<nat> -> Option<seq<Field>>, coreOk: bool)
      returns (result: Result<Option<seq<Field>>, CoreError>)
      requires w.history.WellFormed() && forall items :: IsInt64(UnreadCountFromCore(answer(items)))
      modifies w
      ensures w.history.WellFormed()
      ensures var req, known := UnreadRequest(tenant, email), Known(tenant, email);
              var (after, items) := ReadRun(old(w.history), req, known, UNREAD_TTL, if coreOk then Lists else Fails);
              && w.history == after
              && (items.Err? ==> result == Err(items.error))
              && (items.Ok? ==> items.value.Some?)
              && (items.Ok? ==> result == Ok(if ServedFromCache(old(w.history), w.history, req, known)
                                             then CountAnswer(UnreadCountFromCore(answer(items.value.value)))
                                             else answer(items.value.value)))
    {
      var items, fromCache := Read(w, UnreadRequest(tenant, email), Known(tenant, email), UNREAD_TTL,
                                   if coreOk then Lists else Fails);
      if items.Err? {
        return Err(items.error);
      }
      var changes := items.value.value;
      if !fromCache {
        return Ok(answer(changes));
      }
      AtoiDecimal(UnreadCountFromCore(answer(changes)));
      var count := Atoi(Decimal(UnreadCountFromCore(answer(changes))));
      return Ok(CountAnswer(count.value));
    }

    /** `MarkRead` and `MarkAllRead`: change `id` is made in Core, then the user is invalidated. */
    method Mark(w: World, tenant: string, email: string, id: nat, coreOk: bool) returns (result: Result<nat, CoreError>)
      requires w.history.WellFormed()
      modifies w
      ensures w.history.WellFormed()
      ensures w.history == old(w.history).(trace := old(w.history.trace) + MarkCommands(tenant, email, id, coreOk))
      ensures result == if coreOk then Ok(id) else Err(CoreUnavailable)
    {
      ghost var before := w.history.trace;
      if !coreOk {
        assert before + [] == before;
        return Err(CoreUnavailable);
      }
      w.Do(Commit(id));
      if Known(tenant, email) {
        w.BumpScope(UserScope(tenant, email));
        assert w.history.trace == before + MarkCommands(tenant, email, id, coreOk);
      }
      result := Ok(id);
    }
  }

  /** A request for the user's count or for a page of theirs. */
  ghost predicate IsOfUser(req: Request, tenant: string, email: string) {
    || req == UnreadRequest(tenant, email)
    || exists p: N.PageQuery :: TrimSpace(p.tenant) == TrimSpace(tenant)
                                && A.NormalizeEmail(p.email) == A.NormalizeEmail(email) && req == PageRequest(p)
  }

  /** After a mark, whose commands may be interleaved with anyone's: a client that asks for the user's
      version after the bump is never served a count or a page that misses the mark, unless its writer
      loaded from Core before the mark and asked for the version after the bump. */
  lemma MarkedUserIsStaleOnlyByRace(h: History, tenant: string, email: string, id: nat, at: seq<nat>, q: nat)
    requires h.WellFormed() && AllDistinct(h.sep, h.Reqs()) && Known(tenant, email)
    requires Scattered(h, at, MarkCommands(tenant, email, id, true))
    requires forall n :: 0 <= n < |h.trace| && h.trace[n] == Commit(id) ==> n == at[0]
    requires q < |h.trace| && h.trace[q].Fetch? && h.Hit(q).Some? && h.listed(id, h.trace[q].req)
    requires IsOfUser(h.trace[q].req, tenant, email)
    requires |h.trace[q].readAt| == 1 && at[1] < h.trace[q].readAt[0]
    ensures var e := h.Hit(q).value; var p := e.writer;
            && p < q && h.trace[p].Write? && |h.trace[p].readAt| == |h.trace[p].req.scopes| == 1
            && h.trace[p].readAt[0] < p
            && (id !in e.items <==> h.trace[p].load <= at[0])
            && (h.Outlasts(p, 0) && id !in e.items ==> h.trace[p].load <= at[0] < at[1] < h.trace[p].readAt[0])
  {
    assert h.trace[at[0]] == Commit(id) && h.trace[at[1]] == Incr(UserScope(tenant, email)) && at[0] < at[1];
    StaleOnlyByRace(h, id, at[0], at[1], q, 0);
  }
}
