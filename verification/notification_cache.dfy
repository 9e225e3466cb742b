/** The read cache for notifications: unread counts and first pages, one version per user. */
module NotificationCache {
  import opened Text
  import opened Values
  import opened VersionedCache
  import opened Joining
  import A = ActivityCache

  function UserKey(tenant: string, email: string): string {
    TrimSpace(tenant) + "|" + A.NormalizeEmail(email)
  }

  function UserScope(tenant: string, email: string): Scope { Scope("user", UserKey(tenant, email)) }

  function UnreadRequest(tenant: string, email: string): Request {
    Request([], [UserScope(tenant, email)], [TrimSpace(tenant), A.NormalizeEmail(email), "unread"], [])
  }

  datatype PageQuery = PageQuery(tenant: string, email: string, state: string, severity: string, limit: int)

  function PageRequest(q: PageQuery): Request {
    Request([], [UserScope(q.tenant, q.email)],
            [TrimSpace(q.tenant), A.NormalizeEmail(q.email), "list", q.state, q.severity, Decimal(q.limit)], [])
  }

  class MemoryReadCache {
    var ver: map<string, nat>
    var unread: map<string, int>
    var lists: map<string, Value>
    ghost var counts: Store<int>
    ghost var pages: Store<Value>

    /** Both models count the versions that `ver` holds. */
    ghost predicate Valid()
      reads this
    {
      && (forall k :: A.Counted(ver, k) == Version(counts.counters, Scope("user", k)))
      && counts.counters == pages.counters
      && counts.entries == unread && pages.entries == lists
    }

    constructor ()
      ensures Valid() && counts == Store(map[], map[]) && pages == Store(map[], map[])
    {
      ver, unread, lists := map[], map[], map[];
      counts, pages := Store(map[], map[]), Store(map[], map[]);
    }

    method UnreadKey(tenant: string, email: string) returns (key: string)
      requires Valid()
      ensures key == CurrentKey('|', counts.counters, UnreadRequest(tenant, email))
    {
      var version := A.Counted(ver, UserKey(tenant, email));
      key := Join([Decimal(version), TrimSpace(tenant), A.NormalizeEmail(email), "unread"], '|');
      ghost var m := UnreadRequest(tenant, email);
      assert Versions(counts.counters, m.scopes) == [version];
      assert Decimals([version]) == [Decimal(version)];
      assert Parts([version], m) == [Decimal(version), TrimSpace(tenant), A.NormalizeEmail(email), "unread"];
    }

    method PageKey(q: PageQuery) returns (key: string)
      requires Valid()
      ensures key == CurrentKey('|', pages.counters, PageRequest(q))
    {
      var version := A.Counted(ver, UserKey(q.tenant, q.email));
      var parts := [Decimal(version), TrimSpace(q.tenant), A.NormalizeEmail(q.email), "list", q.state, q.severity,
                    Decimal(q.limit)];
      key := Join(parts, '|');
      ghost var m := PageRequest(q);
      assert Versions(pages.counters, m.scopes) == [version];
      assert Decimals([version]) == [Decimal(version)];
      assert Parts([version], m) == parts;
    }

    method GetUnreadCount(tenant: string, email: string) returns (count: Option<int>)
      requires Valid()
      ensures count == Cached('|', counts, UnreadRequest(tenant, email))
    {
      var key := UnreadKey(tenant, email);
      count := Find(unread, key);
    }

    method SetUnreadCount(tenant: string, email: string, count: int)
      requires Valid()
      modifies this
      ensures Valid() && pages == old(pages)
      ensures counts == Put('|', old(counts), UnreadRequest(tenant, email), count)
    {
      var key := UnreadKey(tenant, email);
      unread := unread[key := count];
      counts := Put('|', counts, UnreadRequest(tenant, email), count);
    }

    method GetList(q: PageQuery) returns (payload: Option<Value>)
      requires Valid()
      ensures payload == Cached('|', pages, PageRequest(q))
    {
      var key := PageKey(q);
      payload := Find(lists, key);
    }

    method SetList(q: PageQuery, payload: Value)
      requires Valid()
      modifies this
      ensures Valid() && counts == old(counts)
      ensures pages == Put('|', old(pages), PageRequest(q), payload)
    {
      var key := PageKey(q);
      lists := lists[key := payload];
      pages := Put('|', pages, PageRequest(q), payload);
    }

    /** One bump makes the user's count and every page of theirs unreachable. */
    method InvalidateUser(tenant: string, email: string)
      requires Valid()
      modifies this
      ensures Valid()
      ensures counts == Bump(old(counts), UserScope(tenant, email))
      ensures pages == Bump(old(pages), UserScope(tenant, email))
    {
      var k := UserKey(tenant, email);
      ver := ver[k := A.Counted(ver, k) + 1];
      counts, pages := Bump(counts, UserScope(tenant, email)), Bump(pages, UserScope(tenant, email));
    }
  }

  // ----- refinement of eager deletion -----

  datatype CacheOp =
    | GetUnread(tenant: string, email: string)
    | SetUnread(tenant: string, email: string, count: int)
    | GetPage(q: PageQuery)
    | SetPage(q: PageQuery, payload: Value)
    | InvalidateUser(tenant: string, email: string)

  predicate PipeFree(op: CacheOp) {
    match op
    case GetPage(q) => '|' !in q.tenant && '|' !in q.email && '|' !in q.state && '|' !in q.severity
    case SetPage(q, _) => '|' !in q.tenant && '|' !in q.email && '|' !in q.state && '|' !in q.severity
    case _ => '|' !in op.tenant && '|' !in op.email
  }

  ghost predicate AllPipeFree(ops: seq<CacheOp>) {
    forall i :: 0 <= i < |ops| ==> PipeFree(ops[i])
  }

  /** A request some pipe-free call makes. */
  ghost predicate FromPipeFree(q: Request) {
    || (exists t, e :: '|' !in t && '|' !in e && q == UnreadRequest(t, e))
    || (exists p :: PipeFree(GetPage(p)) && q == PageRequest(p))
  }

  lemma UserFree(tenant: string, email: string)
    requires '|' !in tenant && '|' !in email
    ensures '|' !in TrimSpace(tenant) && '|' !in A.NormalizeEmail(email)
  {
    TrimSpaceTrims(tenant);
    TrimSpaceTrims(email);
    A.LowerKeepsOut('|', TrimSpace(email));
  }

  lemma FromPipeFreeIsSepFree(q: Request)
    requires FromPipeFree(q)
    ensures SepFree('|', q) && |q.prefix| == 0 && |q.scopes| == 1 && |q.body| >= 3
    ensures q.scopes == [Scope("user", q.body[0] + "|" + q.body[1])]
  {
    if t, e :| '|' !in t && '|' !in e && q == UnreadRequest(t, e) {
      UnreadIsSepFree(t, e);
    } else {
      var p :| PipeFree(GetPage(p)) && q == PageRequest(p);
      PageIsSepFree(p);
    }
  }

  lemma UnreadIsSepFree(tenant: string, email: string)
    requires '|' !in tenant && '|' !in email
    ensures SepFree('|', UnreadRequest(tenant, email))
  {
    UserFree(tenant, email);
  }

  lemma PageIsSepFree(p: PageQuery)
    requires PipeFree(GetPage(p))
    ensures SepFree('|', PageRequest(p))
  {
    UserFree(p.tenant, p.email);
    DecimalChars(p.limit);
  }

  lemma PipeFreeDistinct(reqs: set<Request>)
    requires forall q :: q in reqs ==> FromPipeFree(q)
    ensures AllDistinct('|', reqs)
  {
    forall p, q | p in reqs && q in reqs ensures Distinct('|', p, q) {
      FromPipeFreeIsSepFree(p);
      FromPipeFreeIsSepFree(q);
      if |p.body| == |q.body| {
        SameShapeDistinct('|', p, q);
      } else {
        OtherShapeDistinct('|', p, q);
      }
    }
  }

  // The reference: two maps by user, without keys or versions.

  datatype User = User(tenant: string, email: string)

  /** Users are the same up to case and space of the email and space around the tenant. */
  function UserOf(tenant: string, email: string): User {
    User(TrimSpace(tenant), A.NormalizeEmail(email))
  }

  function Normal(q: PageQuery): PageQuery {
    q.(tenant := TrimSpace(q.tenant), email := A.NormalizeEmail(q.email))
  }

  datatype Reply = Count(count: Option<int>) | Page(payload: Option<Value>)

  /** What one call of `MemoryReadCache` answers, and what it leaves. */
  function Answer(counts: Store<int>, pages: Store<Value>, op: CacheOp): seq<Reply> {
    match op
    case GetUnread(tenant, email) => [Count(Cached('|', counts, UnreadRequest(tenant, email)))]
    case GetPage(q) => [Page(Cached('|', pages, PageRequest(q)))]
    case _ => []
  }

  function CountsAfter(counts: Store<int>, op: CacheOp): Store<int> {
    match op
    case SetUnread(tenant, email, count) => Put('|', counts, UnreadRequest(tenant, email), count)
    case InvalidateUser(tenant, email) => Bump(counts, UserScope(tenant, email))
    case _ => counts
  }

  function PagesAfter(pages: Store<Value>, op: CacheOp): Store<Value> {
    match op
    case SetPage(q, payload) => Put('|', pages, PageRequest(q), payload)
    case InvalidateUser(tenant, email) => Bump(pages, UserScope(tenant, email))
    case _ => pages
  }

  /** What its calls answer, one after the other. */
  function Replies(counts: Store<int>, pages: Store<Value>, ops: seq<CacheOp>): seq<Reply>
    decreases ops
  {
    if |ops| == 0 then []
    else Answer(counts, pages, ops[0]) + Replies(CountsAfter(counts, ops[0]), PagesAfter(pages, ops[0]), ops[1..])
  }

  function WithoutUser(pages: map<PageQuery, Value>, user: User): map<PageQuery, Value> {
    map q | q in pages && UserOf(q.tenant, q.email) != user :: pages[q]
  }

  function ReferenceAnswer(users: map<User, int>, queries: map<PageQuery, Value>, op: CacheOp): seq<Reply> {
    match op
    case GetUnread(tenant, email) => [Count(Find(users, UserOf(tenant, email)))]
    case GetPage(q) => [Page(Find(queries, Normal(q)))]
    case _ => []
  }

  function UsersAfter(users: map<User, int>, op: CacheOp): map<User, int> {
    match op
    case SetUnread(tenant, email, count) => users[UserOf(tenant, email) := count]
    case InvalidateUser(tenant, email) => users - {UserOf(tenant, email)}
    case _ => users
  }

  function QueriesAfter(queries: map<PageQuery, Value>, op: CacheOp): map<PageQuery, Value> {
    match op
    case SetPage(q, payload) => queries[Normal(q) := payload]
    case InvalidateUser(tenant, email) => WithoutUser(queries, UserOf(tenant, email))
    case _ => queries
  }

  function ReferenceReplies(users: map<User, int>, queries: map<PageQuery, Value>, ops: seq<CacheOp>): seq<Reply>
    decreases ops
  {
    if |ops| == 0 then []
    else
      ReferenceAnswer(users, queries, ops[0])
      + ReferenceReplies(UsersAfter(users, ops[0]), QueriesAfter(queries, ops[0]), ops[1..])
  }

  lemma UnreadIsUser(t1: string, e1: string, t2: string, e2: string)
    ensures UnreadRequest(t1, e1) == UnreadRequest(t2, e2) <==> UserOf(t1, e1) == UserOf(t2, e2)
  {
    var p, q := UnreadRequest(t1, e1).body, UnreadRequest(t2, e2).body;
    assert p == q ==> p[0] == q[0] && p[1] == q[1];
  }

  lemma PageIsNormal(a: PageQuery, b: PageQuery)
    ensures PageRequest(a) == PageRequest(b) <==> Normal(a) == Normal(b)
  {
    var p, q := PageRequest(a).body, PageRequest(b).body;
    if p == q {
      assert p[0] == q[0] && p[1] == q[1] && p[3] == q[3] && p[4] == q[4] && p[5] == q[5];
      DecimalInjective(a.limit, b.limit);
    }
    if Normal(a) == Normal(b) {
      assert Normal(a).tenant == Normal(b).tenant && Normal(a).email == Normal(b).email;
    }
  }

  /** A pipe-free user's counter is that user's alone. */
  lemma ScopeIsUser(t1: string, e1: string, t2: string, e2: string)
    requires '|' !in t1 && '|' !in e1
    ensures UserScope(t1, e1) == UserScope(t2, e2) <==> UserOf(t1, e1) == UserOf(t2, e2)
  {
    UserFree(t1, e1);
    var a, b := [TrimSpace(t1), A.NormalizeEmail(e1)], [TrimSpace(t2), A.NormalizeEmail(e2)];
    JoinPair(TrimSpace(t1), A.NormalizeEmail(e1), '|');
    JoinPair(TrimSpace(t2), A.NormalizeEmail(e2), '|');
    if UserScope(t1, e1) == UserScope(t2, e2) {
      JoinDetermines(a, b, '|');
      assert a[0] == b[0] && a[1] == b[1];
    }
  }

  lemma UserTwice(tenant: string, email: string)
    ensures UserOf(TrimSpace(tenant), A.NormalizeEmail(email)) == UserOf(tenant, email)
  {
    TrimSpaceTrims(tenant);
    A.NormalTwice(email);
  }

  // What is kept under keys is what the reference keeps.

  ghost predicate CountsAgree(keyed: map<Request, int>, counts: map<User, int>) {
    forall t, e :: '|' !in t && '|' !in e ==> Find(keyed, UnreadRequest(t, e)) == Find(counts, UserOf(t, e))
  }

  ghost predicate PagesAgree(keyed: map<Request, Value>, pages: map<PageQuery, Value>) {
    forall q :: PipeFree(GetPage(q)) ==> Find(keyed, PageRequest(q)) == Find(pages, Normal(q))
  }

  lemma CountStored(keyed: map<Request, int>, counts: map<User, int>, tenant: string, email: string, count: int)
    requires CountsAgree(keyed, counts)
    ensures CountsAgree(keyed[UnreadRequest(tenant, email) := count], counts[UserOf(tenant, email) := count])
  {
    forall t, e | '|' !in t && '|' !in e
      ensures Find(keyed[UnreadRequest(tenant, email) := count], UnreadRequest(t, e))
              == Find(counts[UserOf(tenant, email) := count], UserOf(t, e))
    {
      UnreadIsUser(t, e, tenant, email);
      assert Find(keyed, UnreadRequest(t, e)) == Find(counts, UserOf(t, e));
    }
  }

  lemma PageStored(keyed: map<Request, Value>, pages: map<PageQuery, Value>, p: PageQuery, payload: Value)
    requires PagesAgree(keyed, pages)
    ensures PagesAgree(keyed[PageRequest(p) := payload], pages[Normal(p) := payload])
  {
    forall q | PipeFree(GetPage(q))
      ensures Find(keyed[PageRequest(p) := payload], PageRequest(q)) == Find(pages[Normal(p) := payload], Normal(q))
    {
      PageIsNormal(q, p);
      assert Find(keyed, PageRequest(q)) == Find(pages, Normal(q));
    }
  }

  lemma UserDropped(keyed: map<Request, int>, counts: map<User, int>, kept: map<Request, Value>,
                    pages: map<PageQuery, Value>, tenant: string, email: string)
    requires CountsAgree(keyed, counts) && PagesAgree(kept, pages)
    ensures CountsAgree(Drop(keyed, UserScope(tenant, email)), counts - {UserOf(tenant, email)})
    ensures PagesAgree(Drop(kept, UserScope(tenant, email)), WithoutUser(pages, UserOf(tenant, email)))
  {
    forall t, e | '|' !in t && '|' !in e
      ensures Find(Drop(keyed, UserScope(tenant, email)), UnreadRequest(t, e))
              == Find(counts - {UserOf(tenant, email)}, UserOf(t, e))
    {
      ScopeIsUser(t, e, tenant, email);
      assert Find(keyed, UnreadRequest(t, e)) == Find(counts, UserOf(t, e));
    }
    forall q | PipeFree(GetPage(q))
      ensures Find(Drop(kept, UserScope(tenant, email)), PageRequest(q))
              == Find(WithoutUser(pages, UserOf(tenant, email)), Normal(q))
    {
      ScopeIsUser(q.tenant, q.email, tenant, email);
      UserTwice(q.tenant, q.email);
      assert Find(kept, PageRequest(q)) == Find(pages, Normal(q));
    }
  }

  /** The stores, the same entries eagerly deleted, and the reference. */
  datatype Sides = Sides(counts: Store<int>, pages: Store<Value>, keyed: map<Request, int>, kept: map<Request, Value>,
                         users: map<User, int>, queries: map<PageQuery, Value>)

  ghost predicate Related(reqs: set<Request>, s: Sides) {
    && Simulates('|', reqs, s.counts, s.keyed) && Simulates('|', reqs, s.pages, s.kept)
    && CountsAgree(s.keyed, s.users) && PagesAgree(s.kept, s.queries)
  }

  lemma CountKeeps(reqs: set<Request>, s: Sides, tenant: string, email: string, count: int) returns (t: Sides)
    requires AllDistinct('|', reqs) && Related(reqs, s) && UnreadRequest(tenant, email) in reqs
    ensures Related(reqs, t)
    ensures t.counts == Put('|', s.counts, UnreadRequest(tenant, email), count) && t.pages == s.pages
    ensures t.users == s.users[UserOf(tenant, email) := count] && t.queries == s.queries
  {
    var r := UnreadRequest(tenant, email);
    t := s.(counts := Put('|', s.counts, r, count), keyed := s.keyed[r := count],
            users := s.users[UserOf(tenant, email) := count]);
    PutSimulates('|', reqs, s.counts, s.keyed, r, count);
    CountStored(s.keyed, s.users, tenant, email, count);
  }

  lemma PageKeeps(reqs: set<Request>, s: Sides, q: PageQuery, payload: Value) returns (t: Sides)
    requires AllDistinct('|', reqs) && Related(reqs, s) && PageRequest(q) in reqs
    ensures Related(reqs, t) && t.pages == Put('|', s.pages, PageRequest(q), payload) && t.counts == s.counts
    ensures t.queries == s.queries[Normal(q) := payload] && t.users == s.users
  {
    var r := PageRequest(q);
    t := s.(pages := Put('|', s.pages, r, payload), kept := s.kept[r := payload],
            queries := s.queries[Normal(q) := payload]);
    PutSimulates('|', reqs, s.pages, s.kept, r, payload);
    PageStored(s.kept, s.queries, q, payload);
  }

  lemma UserKeeps(reqs: set<Request>, s: Sides, tenant: string, email: string) returns (t: Sides)
    requires AllDistinct('|', reqs) && Related(reqs, s)
    ensures Related(reqs, t)
    ensures t.counts == Bump(s.counts, UserScope(tenant, email)) && t.pages == Bump(s.pages, UserScope(tenant, email))
    ensures t.users == s.users - {UserOf(tenant, email)} && t.queries == WithoutUser(s.queries, UserOf(tenant, email))
  {
    var scope := UserScope(tenant, email);
    t := Sides(Bump(s.counts, scope), Bump(s.pages, scope), Drop(s.keyed, scope), Drop(s.kept, scope),
               s.users - {UserOf(tenant, email)}, WithoutUser(s.queries, UserOf(tenant, email)));
    BumpSimulates('|', reqs, s.counts, s.keyed, scope);
    BumpSimulates('|', reqs, s.pages, s.kept, scope);
    UserDropped(s.keyed, s.users, s.kept, s.queries, tenant, email);
  }

  lemma CountRead(reqs: set<Request>, s: Sides, tenant: string, email: string)
    requires Related(reqs, s) && UnreadRequest(tenant, email) in reqs && '|' !in tenant && '|' !in email
    ensures Cached('|', s.counts, UnreadRequest(tenant, email)) == Find(s.users, UserOf(tenant, email))
  {
  }

  lemma PageRead(reqs: set<Request>, s: Sides, q: PageQuery)
    requires Related(reqs, s) && PageRequest(q) in reqs && PipeFree(GetPage(q))
    ensures Cached('|', s.pages, PageRequest(q)) == Find(s.queries, Normal(q))
  {
  }

  lemma StepAgrees(reqs: set<Request>, s: Sides, op: CacheOp) returns (next: Sides)
    requires AllDistinct('|', reqs) && Related(reqs, s) && PipeFree(op) && RequestIn(op, reqs)
    ensures Related(reqs, next) && next.counts == CountsAfter(s.counts, op) && next.pages == PagesAfter(s.pages, op)
    ensures next.users == UsersAfter(s.users, op) && next.queries == QueriesAfter(s.queries, op)
    ensures Answer(s.counts, s.pages, op) == ReferenceAnswer(s.users, s.queries, op)
  {
    next := s;
    match op {
      case GetUnread(tenant, email) => CountRead(reqs, s, tenant, email);
      case SetUnread(tenant, email, count) => next := CountKeeps(reqs, s, tenant, email, count);
      case GetPage(q) => PageRead(reqs, s, q);
      case SetPage(q, payload) => next := PageKeeps(reqs, s, q, payload);
      case InvalidateUser(tenant, email) => next := UserKeeps(reqs, s, tenant, email);
    }
  }

  lemma {:induction false} RepliesAgree(reqs: set<Request>, s: Sides, ops: seq<CacheOp>)
    requires AllDistinct('|', reqs) && Related(reqs, s)
    requires forall i :: 0 <= i < |ops| ==> PipeFree(ops[i]) && RequestIn(ops[i], reqs)
    ensures Replies(s.counts, s.pages, ops) == ReferenceReplies(s.users, s.queries, ops)
    decreases ops
  {
    if |ops| > 0 {
      var next := StepAgrees(reqs, s, ops[0]);
      RepliesAgree(reqs, next, ops[1..]);
    }
  }

  /** The request a call makes, if it makes one. */
  predicate RequestIn(op: CacheOp, reqs: set<Request>) {
    match op
    case GetPage(q) => PageRequest(q) in reqs
    case SetPage(q, _) => PageRequest(q) in reqs
    case InvalidateUser(_, _) => true
    case _ => UnreadRequest(op.tenant, op.email) in reqs
  }

  function RequestsOf(op: CacheOp): set<Request> {
    match op
    case GetPage(q) => {PageRequest(q)}
    case SetPage(q, _) => {PageRequest(q)}
    case InvalidateUser(_, _) => {}
    case _ => {UnreadRequest(op.tenant, op.email)}
  }

  lemma RequestsAreFromPipeFree(op: CacheOp)
    requires PipeFree(op)
    ensures forall q :: q in RequestsOf(op) ==> FromPipeFree(q)
  {
    if op.GetPage? || op.SetPage? {
      assert PipeFree(GetPage(op.q));
    }
  }

  /** Over every sequence of calls with fields free of '|', the in-process cache answers as two plain maps do:
      counts by user, pages by user, state, severity and limit, all of a user's deleted when it is invalidated. */
  lemma MemoryCacheRefinesDeletion(ops: seq<CacheOp>)
    requires AllPipeFree(ops)
    ensures Replies(Store(map[], map[]), Store(map[], map[]), ops) == ReferenceReplies(map[], map[], ops)
  {
    var reqs := set i, q | 0 <= i < |ops| && q in RequestsOf(ops[i]) :: q;
    forall q | q in reqs ensures FromPipeFree(q) {
      var i :| 0 <= i < |ops| && q in RequestsOf(ops[i]);
      RequestsAreFromPipeFree(ops[i]);
    }
    forall i | 0 <= i < |ops| ensures RequestIn(ops[i], reqs) {
      assert forall q :: q in RequestsOf(ops[i]) ==> q in reqs;
    }
    PipeFreeDistinct(reqs);
    RepliesAgree(reqs, Sides(Store(map[], map[]), Store(map[], map[]), map[], map[], map[], map[]), ops);
  }
}
