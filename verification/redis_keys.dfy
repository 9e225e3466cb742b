/** The Redis keys of the three read caches, and which of them can be confused. */
module RedisKeys {
  import opened Text
  import opened Joining
  import opened VersionedCache
  import opened RedisTimeline
  import A = ActivityCache
  import N = NotificationCache
  import Sorting

  const ACTIVITY_TTL := 25_000
  const UNREAD_TTL := 45_000
  const PAGE_TTL := 30_000

  function VersionScope(parts: seq<string>): Scope {
    Scope("version", Join(parts, ':'))
  }

  const LIST_PREFIX := ["activities", "list", "v1"]
  const UNREAD_PREFIX := ["notifications", "unread", "v1"]
  const PAGE_PREFIX := ["notifications", "list", "v1"]

  lemma PrefixesAreFree()
    ensures Free(':', LIST_PREFIX) && Free(':', UNREAD_PREFIX) && Free(':', PAGE_PREFIX)
  {
  }

  // ----- activity lists -----

  const VERSIONS := ["activities", "cache", "ver", "v1"]

  function CounterScope(tenant: string, kind: string, id: string): Scope {
    if TrimSpace(id) == "" then NO_SCOPE else VersionScope(VERSIONS + [TrimSpace(tenant), kind, TrimSpace(id)])
  }

  function LoanScope(tenant: string, loan: string): Scope {
    CounterScope(tenant, "loan", loan)
  }

  function ClientScope(tenant: string, client: string): Scope {
    CounterScope(tenant, "client", client)
  }

  /** Agent name and activity type go into the key as one component. */
  function Merged(r: A.ListRequest): string {
    Pair(r.agentName, "|", r.activityType)
  }

  function ActivityRequest(digest: string -> string, r: A.ListRequest): Request {
    Request(LIST_PREFIX,
            [LoanScope(r.tenant, r.loan), ClientScope(r.tenant, r.client)],
            [TrimSpace(r.tenant), A.NormalizeEmail(r.email), TrimSpace(r.loan), A.Fingerprint(digest, r.loanIDs),
             TrimSpace(r.client), TrimSpace(r.agent), Merged(r), Decimal(r.limit), Decimal(r.offset)],
            [TrimSpace(r.agentName), TrimSpace(r.activityType)] + Sorting.Sort(r.loanIDs))
  }

  // ----- notifications -----

  const USER_VERSIONS := ["notifications", "cache", "ver", "v1"]

  function UserScope(tenant: string, email: string): Scope {
    VersionScope(USER_VERSIONS + [TrimSpace(tenant), A.NormalizeEmail(email)])
  }

  function UnreadRequest(tenant: string, email: string): Request {
    Request(UNREAD_PREFIX, [UserScope(tenant, email)],
            [TrimSpace(tenant), A.NormalizeEmail(email)], [])
  }

  function PageRequest(q: N.PageQuery): Request {
    Request(PAGE_PREFIX, [UserScope(q.tenant, q.email)],
            [TrimSpace(q.tenant), A.NormalizeEmail(q.email), TrimSpace(q.state), TrimSpace(q.severity),
             Decimal(q.limit)], [])
  }

  // ----- any of them -----

  datatype Query =
    | ActivityList(list: A.ListRequest)
    | Unread(tenant: string, email: string)
    | NotificationPage(page: N.PageQuery)

  function RequestOf(digest: string -> string, q: Query): Request {
    match q
    case ActivityList(r) => ActivityRequest(digest, r)
    case Unread(tenant, email) => UnreadRequest(tenant, email)
    case NotificationPage(page) => PageRequest(page)
  }

  function TtlOf(q: Query): nat {
    match q
    case ActivityList(_) => ACTIVITY_TTL
    case Unread(_, _) => UNREAD_TTL
    case NotificationPage(_) => PAGE_TTL
  }

  /** What the caches take two queries to be: fields trimmed, emails folded, loan ids in order. */
  function Normalized(q: Query): Query {
    match q
    case ActivityList(r) =>
      ActivityList(A.ListRequest(
        TrimSpace(r.tenant), A.NormalizeEmail(r.email), TrimSpace(r.loan), Sorting.Sort(r.loanIDs), TrimSpace(r.client),
        TrimSpace(r.agent), TrimSpace(r.agentName), TrimSpace(r.activityType), r.limit, r.offset))
    case Unread(tenant, email) => Unread(TrimSpace(tenant), A.NormalizeEmail(email))
    case NotificationPage(p) =>
      NotificationPage(N.PageQuery(TrimSpace(p.tenant), A.NormalizeEmail(p.email), TrimSpace(p.state),
                                   TrimSpace(p.severity), p.limit))
  }

  lemma ActivityTold(digest: string -> string, a: A.ListRequest, b: A.ListRequest)
    requires ActivityRequest(digest, a) == ActivityRequest(digest, b)
    ensures Normalized(ActivityList(a)) == Normalized(ActivityList(b))
  {
    var p, q := ActivityRequest(digest, a), ActivityRequest(digest, b);
    assert p.body[0] == q.body[0] && p.body[1] == q.body[1] && p.body[2] == q.body[2];
    assert p.body[4] == q.body[4] && p.body[5] == q.body[5];
    assert p.body[7] == q.body[7] && p.body[8] == q.body[8];
    DecimalInjective(a.limit, b.limit);
    DecimalInjective(a.offset, b.offset);
    BehindTold(a, b);
  }

  lemma BehindTold(a: A.ListRequest, b: A.ListRequest)
    requires [TrimSpace(a.agentName), TrimSpace(a.activityType)] + Sorting.Sort(a.loanIDs)
          == [TrimSpace(b.agentName), TrimSpace(b.activityType)] + Sorting.Sort(b.loanIDs)
    ensures TrimSpace(a.agentName) == TrimSpace(b.agentName) && TrimSpace(a.activityType) == TrimSpace(b.activityType)
    ensures Sorting.Sort(a.loanIDs) == Sorting.Sort(b.loanIDs)
  {
    var x := [TrimSpace(a.agentName), TrimSpace(a.activityType)] + Sorting.Sort(a.loanIDs);
    var y := [TrimSpace(b.agentName), TrimSpace(b.activityType)] + Sorting.Sort(b.loanIDs);
    assert x[0] == y[0] && x[1] == y[1];
    assert x[2..] == Sorting.Sort(a.loanIDs) && y[2..] == Sorting.Sort(b.loanIDs);
  }

  lemma PageTold(a: N.PageQuery, b: N.PageQuery)
    requires PageRequest(a) == PageRequest(b)
    ensures Normalized(NotificationPage(a)) == Normalized(NotificationPage(b))
  {
    var p, q := PageRequest(a).body, PageRequest(b).body;
    assert p[0] == q[0] && p[1] == q[1] && p[2] == q[2] && p[3] == q[3] && p[4] == q[4];
    DecimalInjective(a.limit, b.limit);
  }

  lemma Shape(digest: string -> string, q: Query)
    ensures var r := RequestOf(digest, q);
            && |r.prefix| == 3
            && |r.scopes| == (if q.ActivityList? then 2 else 1)
            && |r.body| == (if q.ActivityList? then 9 else if q.Unread? then 2 else 5)
  {
  }

  /** A request carries the whole normalised query. */
  lemma RequestTellsQuery(digest: string -> string, a: Query, b: Query)
    requires RequestOf(digest, a) == RequestOf(digest, b)
    ensures Normalized(a) == Normalized(b)
  {
    Shape(digest, a);
    Shape(digest, b);
    if a.ActivityList? {
      ActivityTold(digest, a.list, b.list);
    } else if a.Unread? {
      var p, q := UnreadRequest(a.tenant, a.email).body, UnreadRequest(b.tenant, b.email).body;
      assert p[0] == q[0] && p[1] == q[1];
    } else {
      PageTold(a.page, b.page);
    }
  }

  // ----- queries that are never confused -----

  /** No field holds a colon, the agent name no bar, and no loan id a comma. */
  predicate KeySafe(q: Query) {
    match q
    case ActivityList(r) =>
      && ':' !in r.tenant && ':' !in r.email && ':' !in r.loan && ':' !in r.client
      && ':' !in r.agent && ':' !in r.agentName && ':' !in r.activityType
      && '|' !in r.agentName && Free(',', r.loanIDs)
    case Unread(tenant, email) => ':' !in tenant && ':' !in email
    case NotificationPage(p) => ':' !in p.tenant && ':' !in p.email && ':' !in p.state && ':' !in p.severity
  }

  ghost predicate NoClash(digest: string -> string, a: Query, b: Query) {
    a.ActivityList? && b.ActivityList? ==> A.NoCollision(digest, a.list.loanIDs, b.list.loanIDs)
  }

  lemma TrimKeepsOut(c: char, s: string)
    requires c !in s
    ensures c !in TrimSpace(s)
  {
    TrimSpaceTrims(s);
  }

  lemma EmailKeepsOut(email: string)
    requires ':' !in email
    ensures ':' !in A.NormalizeEmail(email)
  {
    TrimKeepsOut(':', email);
    A.LowerKeepsOut(':', TrimSpace(email));
  }

  lemma MergedKeepsOut(r: A.ListRequest)
    requires ':' !in r.agentName && ':' !in r.activityType
    ensures ':' !in Merged(r)
  {
    TrimKeepsOut(':', r.agentName);
    TrimKeepsOut(':', r.activityType);
  }

  lemma ActivityIsSepFree(digest: string -> string, r: A.ListRequest)
    requires KeySafe(ActivityList(r)) && A.CleanDigest(digest)
    ensures SepFree(':', ActivityRequest(digest, r))
  {
    PrefixesAreFree();
    TrimKeepsOut(':', r.tenant);
    EmailKeepsOut(r.email);
    TrimKeepsOut(':', r.loan);
    TrimKeepsOut(':', r.client);
    TrimKeepsOut(':', r.agent);
    MergedKeepsOut(r);
    DecimalChars(r.limit);
    DecimalChars(r.offset);
    var body := ActivityRequest(digest, r).body;
    assert ':' !in body[0] && ':' !in body[1] && ':' !in body[2] && ':' !in body[3] && ':' !in body[4];
    assert ':' !in body[5] && ':' !in body[6] && ':' !in body[7] && ':' !in body[8];
  }

  lemma UnreadIsSepFree(tenant: string, email: string)
    requires KeySafe(Unread(tenant, email))
    ensures SepFree(':', UnreadRequest(tenant, email))
  {
    PrefixesAreFree();
    TrimKeepsOut(':', tenant);
    EmailKeepsOut(email);
  }

  lemma PageIsSepFree(p: N.PageQuery)
    requires KeySafe(NotificationPage(p))
    ensures SepFree(':', PageRequest(p))
  {
    PrefixesAreFree();
    TrimKeepsOut(':', p.tenant);
    EmailKeepsOut(p.email);
    TrimKeepsOut(':', p.state);
    TrimKeepsOut(':', p.severity);
    DecimalChars(p.limit);
  }

  lemma SafeIsSepFree(digest: string -> string, q: Query)
    requires KeySafe(q) && A.CleanDigest(digest)
    ensures SepFree(':', RequestOf(digest, q))
  {
    match q
    case ActivityList(r) => ActivityIsSepFree(digest, r);
    case Unread(tenant, email) => UnreadIsSepFree(tenant, email);
    case NotificationPage(p) => PageIsSepFree(p);
  }

  lemma ActivityBodyTells(digest: string -> string, a: A.ListRequest, b: A.ListRequest)
    requires A.CleanDigest(digest) && A.NoCollision(digest, a.loanIDs, b.loanIDs)
    requires Free(',', a.loanIDs) && Free(',', b.loanIDs) && '|' !in a.agentName && '|' !in b.agentName
    requires ActivityRequest(digest, a).body == ActivityRequest(digest, b).body
    ensures ActivityRequest(digest, a) == ActivityRequest(digest, b)
  {
    var p, q := ActivityRequest(digest, a).body, ActivityRequest(digest, b).body;
    assert p[0] == q[0] && p[2] == q[2] && p[3] == q[3] && p[4] == q[4] && p[6] == q[6];
    A.FingerprintIsBag(digest, a.loanIDs, b.loanIDs);
    TrimKeepsOut('|', a.agentName);
    TrimKeepsOut('|', b.agentName);
    CutOnce(TrimSpace(a.agentName), TrimSpace(a.activityType), TrimSpace(b.agentName), TrimSpace(b.activityType), '|');
  }

  /** Key-safe queries never share a key, of one cache or of two. */
  lemma SafeQueriesDistinct(digest: string -> string, a: Query, b: Query)
    requires KeySafe(a) && KeySafe(b) && A.CleanDigest(digest) && NoClash(digest, a, b)
    ensures Distinct(':', RequestOf(digest, a), RequestOf(digest, b))
  {
    SafeIsSepFree(digest, a);
    SafeIsSepFree(digest, b);
    Shape(digest, a);
    Shape(digest, b);
    var p, q := RequestOf(digest, a), RequestOf(digest, b);
    if |p.body| != |q.body| {
      OtherShapeDistinct(':', p, q);
    } else {
      if p.body == q.body {
        SameKindTells(digest, a, b);
      }
      if p.prefix == q.prefix {
        SameShapeDistinct(':', p, q);
      } else {
        OtherShapeDistinct(':', p, q);
      }
    }
  }

  lemma SameKindTells(digest: string -> string, a: Query, b: Query)
    requires KeySafe(a) && KeySafe(b) && A.CleanDigest(digest) && NoClash(digest, a, b)
    requires RequestOf(digest, a).body == RequestOf(digest, b).body
    ensures RequestOf(digest, a) == RequestOf(digest, b)
  {
    Shape(digest, a);
    Shape(digest, b);
    if a.ActivityList? {
      ActivityBodyTells(digest, a.list, b.list);
    } else {
      var p, q := RequestOf(digest, a).body, RequestOf(digest, b).body;
      assert p[0] == q[0] && p[1] == q[1];
    }
  }

  /** Equal keys of key-safe queries mean the same cache, the same normalised fields each by itself,
      permuted loan ids and the same versions. */
  lemma SafeKeysTell(digest: string -> string, a: Query, b: Query, v: seq<nat>, w: seq<nat>)
    requires KeySafe(a) && KeySafe(b) && A.CleanDigest(digest) && NoClash(digest, a, b)
    requires |v| == |RequestOf(digest, a).scopes| && |w| == |RequestOf(digest, b).scopes|
    requires KeyOf(':', v, RequestOf(digest, a)) == KeyOf(':', w, RequestOf(digest, b))
    ensures Normalized(a) == Normalized(b) && v == w
  {
    SafeQueriesDistinct(digest, a, b);
    RequestTellsQuery(digest, a, b);
  }

  // ----- lists that are confused -----

  function ListKey(digest: string -> string, v: seq<nat>, r: A.ListRequest): string {
    KeyOf(':', v, ActivityRequest(digest, r))
  }

  predicate SameButNames(a: A.ListRequest, b: A.ListRequest) {
    b == a.(agentName := b.agentName, activityType := b.activityType)
  }

  /** Two lists that agree otherwise share a key exactly when their agent name and activity type make
      the same merged text. */
  lemma MergedTextsExactly(digest: string -> string, v: seq<nat>, a: A.ListRequest, b: A.ListRequest)
    requires SameButNames(a, b)
    ensures ListKey(digest, v, a) == ListKey(digest, v, b) <==> Merged(a) == Merged(b)
  {
    var p, q := ActivityRequest(digest, a), ActivityRequest(digest, b);
    var front, back := p.prefix + Decimals(v) + p.body[..6], p.body[7..];
    assert Parts(v, p) == front + [Merged(a)] + back;
    assert Parts(v, q) == front + [Merged(b)] + back;
    JoinMiddle(front, [Merged(a)], [Merged(b)], back, ':');
  }

  predicate SameNames(a: A.ListRequest, b: A.ListRequest) {
    TrimSpace(b.agentName) == TrimSpace(a.agentName) && TrimSpace(b.activityType) == TrimSpace(a.activityType)
  }

  /** A list is told apart from all that differ from it in agent name or activity type exactly when the
      merged text has no other bar between trimmed texts. */
  lemma NamesToldExactly(digest: string -> string, v: seq<nat>, a: A.ListRequest)
    ensures (forall b :: SameButNames(a, b) && ListKey(digest, v, b) == ListKey(digest, v, a) ==> SameNames(a, b))
            <==> OneCut(a.agentName, "|", a.activityType)
  {
    if OneCut(a.agentName, "|", a.activityType) {
      forall b | SameButNames(a, b) && ListKey(digest, v, b) == ListKey(digest, v, a) ensures SameNames(a, b) {
        MergedTextsExactly(digest, v, a, b);
        PairTold(a.agentName, "|", a.activityType, b.agentName, b.activityType);
      }
    } else {
      var name, kind := OtherPair(a.agentName, "|", a.activityType);
      var b := a.(agentName := name, activityType := kind);
      MergedTextsExactly(digest, v, a, b);
      assert SameButNames(a, b) && !SameNames(a, b);
    }
  }

  predicate SameButAgents(a: A.ListRequest, b: A.ListRequest) {
    b == a.(agent := b.agent, agentName := b.agentName)
  }

  lemma AgentTextsExactly(digest: string -> string, v: seq<nat>, a: A.ListRequest, b: A.ListRequest)
    requires SameButAgents(a, b)
    ensures ListKey(digest, v, a) == ListKey(digest, v, b) <==>
            Pair(a.agent, ":", a.agentName) == Pair(b.agent, ":", b.agentName)
  {
    var p, q := ActivityRequest(digest, a), ActivityRequest(digest, b);
    var front, back := p.prefix + Decimals(v) + p.body[..5], p.body[7..];
    assert Parts(v, p) == front + [TrimSpace(a.agent), Merged(a)] + back;
    assert Parts(v, q) == front + [TrimSpace(b.agent), Merged(b)] + back;
    JoinMiddle(front, [TrimSpace(a.agent), Merged(a)], [TrimSpace(b.agent), Merged(b)], back, ':');
    AgentText(a);
    AgentText(b);
    CancelBack(Pair(a.agent, ":", a.agentName), Pair(b.agent, ":", b.agentName), "|" + TrimSpace(a.activityType));
  }

  lemma AgentText(r: A.ListRequest)
    ensures Join([TrimSpace(r.agent), Merged(r)], ':')
         == Pair(r.agent, ":", r.agentName) + ("|" + TrimSpace(r.activityType))
  {
    JoinPair(TrimSpace(r.agent), Merged(r), ':');
    Associative(TrimSpace(r.agentName), "|", TrimSpace(r.activityType));
    Associative(TrimSpace(r.agent) + ":", TrimSpace(r.agentName), "|" + TrimSpace(r.activityType));
  }

  predicate SameAgents(a: A.ListRequest, b: A.ListRequest) {
    TrimSpace(b.agent) == TrimSpace(a.agent) && TrimSpace(b.agentName) == TrimSpace(a.agentName)
  }

  /** The same for agent and agent name, between which a colon can move. */
  lemma AgentsToldExactly(digest: string -> string, v: seq<nat>, a: A.ListRequest)
    ensures (forall b :: SameButAgents(a, b) && ListKey(digest, v, b) == ListKey(digest, v, a) ==> SameAgents(a, b))
            <==> OneCut(a.agent, ":", a.agentName)
  {
    if OneCut(a.agent, ":", a.agentName) {
      forall b | SameButAgents(a, b) && ListKey(digest, v, b) == ListKey(digest, v, a) ensures SameAgents(a, b) {
        AgentTextsExactly(digest, v, a, b);
        PairTold(a.agent, ":", a.agentName, b.agent, b.agentName);
      }
    } else {
      var agent, name := OtherPair(a.agent, ":", a.agentName);
      var b := a.(agent := agent, agentName := name);
      AgentTextsExactly(digest, v, a, b);
      assert SameButAgents(a, b) && !SameAgents(a, b);
    }
  }

  predicate SameButClients(a: A.ListRequest, b: A.ListRequest) {
    b == a.(client := b.client, agent := b.agent)
  }

  lemma ClientTextsExactly(digest: string -> string, v: seq<nat>, a: A.ListRequest, b: A.ListRequest)
    requires SameButClients(a, b)
    ensures ListKey(digest, v, a) == ListKey(digest, v, b) <==>
            Pair(a.client, ":", a.agent) == Pair(b.client, ":", b.agent)
  {
    var p, q := ActivityRequest(digest, a), ActivityRequest(digest, b);
    var front, back := p.prefix + Decimals(v) + p.body[..4], p.body[6..];
    assert Parts(v, p) == front + [TrimSpace(a.client), TrimSpace(a.agent)] + back;
    assert Parts(v, q) == front + [TrimSpace(b.client), TrimSpace(b.agent)] + back;
    JoinMiddle(front, [TrimSpace(a.client), TrimSpace(a.agent)], [TrimSpace(b.client), TrimSpace(b.agent)], back, ':');
    JoinPair(TrimSpace(a.client), TrimSpace(a.agent), ':');
    JoinPair(TrimSpace(b.client), TrimSpace(b.agent), ':');
  }

  predicate SameClients(a: A.ListRequest, b: A.ListRequest) {
    TrimSpace(b.client) == TrimSpace(a.client) && TrimSpace(b.agent) == TrimSpace(a.agent)
  }

  /** And for client and agent, at equal versions of the two clients' counters. */
  lemma ClientsToldExactly(digest: string -> string, v: seq<nat>, a: A.ListRequest)
    ensures (forall b :: SameButClients(a, b) && ListKey(digest, v, b) == ListKey(digest, v, a) ==> SameClients(a, b))
            <==> OneCut(a.client, ":", a.agent)
  {
    if OneCut(a.client, ":", a.agent) {
      forall b | SameButClients(a, b) && ListKey(digest, v, b) == ListKey(digest, v, a) ensures SameClients(a, b) {
        ClientTextsExactly(digest, v, a, b);
        PairTold(a.client, ":", a.agent, b.client, b.agent);
      }
    } else {
      var client, agent := OtherPair(a.client, ":", a.agent);
      var b := a.(client := client, agent := agent);
      ClientTextsExactly(digest, v, a, b);
      assert SameButClients(a, b) && !SameClients(a, b);
    }
  }

  /** Such a pair in any list: different questions to Core, one key. */
  lemma MergedNamesCollide(digest: string -> string, v: seq<nat>, r: A.ListRequest)
    ensures var a, b := r.(agentName := "x|y", activityType := ""), r.(agentName := "x", activityType := "y|");
            Normalized(ActivityList(a)) != Normalized(ActivityList(b)) && ListKey(digest, v, a) == ListKey(digest, v, b)
  {
    var a, b := r.(agentName := "x|y", activityType := ""), r.(agentName := "x", activityType := "y|");
    BarsMerge();
    MergedTextsExactly(digest, v, a, b);
    OtherNameOtherQuery(a, b);
  }

  lemma BarsMerge()
    ensures TrimSpace("x|y") + "|" + TrimSpace("") == TrimSpace("x") + "|" + TrimSpace("y|")
    ensures TrimSpace("x|y") != TrimSpace("x")
  {
    TrimmedStays("x|y");
    TrimmedStays("x");
    TrimmedStays("y|");
    TrimmedStays("");
    assert |"x|y"| != |"x"|;
  }

  lemma OtherNameOtherQuery(a: A.ListRequest, b: A.ListRequest)
    requires TrimSpace(a.agentName) != TrimSpace(b.agentName)
    ensures Normalized(ActivityList(a)) != Normalized(ActivityList(b))
  {
  }

  /** A colon that moves from the agent name to the agent does the same. */
  lemma AgentNamesCollide(digest: string -> string, v: seq<nat>, r: A.ListRequest)
    ensures var a, b := r.(agent := "a", agentName := "x:y"), r.(agent := "a:x", agentName := "y");
            Normalized(ActivityList(a)) != Normalized(ActivityList(b)) && ListKey(digest, v, a) == ListKey(digest, v, b)
  {
    var a, b := r.(agent := "a", agentName := "x:y"), r.(agent := "a:x", agentName := "y");
    ColonsMerge();
    AgentTextsExactly(digest, v, a, b);
    OtherNameOtherQuery(a, b);
  }

  lemma ColonsMerge()
    ensures Pair("a", ":", "x:y") == Pair("a:x", ":", "y") && TrimSpace("x:y") != TrimSpace("y")
  {
    TrimmedStays("a");
    TrimmedStays("x:y");
    TrimmedStays("a:x");
    TrimmedStays("y");
    assert |"x:y"| != |"y"|;
  }

  // ----- version counters -----

  /** A counter's key after `activities:cache:ver:v1:`. */
  function CounterText(tenant: string, kind: string, id: string): string {
    Pair(tenant, ":" + kind + ":", id)
  }

  lemma TextFront(tenant: string, kind: string, id: string)
    ensures CounterText(tenant, kind, id) == TrimSpace(tenant) + ":" + (kind + ":" + TrimSpace(id))
  {
    Associative(TrimSpace(tenant) + ":", kind + ":", TrimSpace(id));
    Associative(TrimSpace(tenant), ":", kind + ":");
    Associative(":", kind, ":");
  }

  lemma ScopeText(tenant: string, kind: string, id: string)
    ensures Join([TrimSpace(tenant), kind, TrimSpace(id)], ':') == CounterText(tenant, kind, id)
  {
    JoinTriple(TrimSpace(tenant), kind, TrimSpace(id), ':');
    TextFront(tenant, kind, id);
  }

  lemma CountersMeet(t1: string, kind1: string, id1: string, t2: string, kind2: string, id2: string)
    requires TrimSpace(id1) != "" && TrimSpace(id2) != ""
    ensures CounterScope(t1, kind1, id1) == CounterScope(t2, kind2, id2) <==>
            CounterText(t1, kind1, id1) == CounterText(t2, kind2, id2)
  {
    ScopeText(t1, kind1, id1);
    ScopeText(t2, kind2, id2);
    JoinFront(VERSIONS, [TrimSpace(t1), kind1, TrimSpace(id1)], [TrimSpace(t2), kind2, TrimSpace(id2)], ':');
  }

  predicate SameCounter(t1: string, kind1: string, id1: string, t2: string, kind2: string, id2: string) {
    TrimSpace(t1) == TrimSpace(t2) && kind1 == kind2 && TrimSpace(id1) == TrimSpace(id2)
  }

  /** At `i` the text can be cut into a tenant and an id of that kind. */
  predicate CounterAt(text: string, kind: string, i: nat) {
    CutAt(text, ":" + kind + ":", i) && i + |kind| + 2 < |text|
  }

  lemma OtherOwner(t: string, kind: string, id: string, other: string, i: nat) returns (t2: string, id2: string)
    requires TrimSpace(id) != "" && CounterAt(CounterText(t, kind, id), other, i)
    ensures CounterScope(t2, other, id2) == CounterScope(t, kind, id) && |TrimSpace(t2)| == i
  {
    var text, sep := CounterText(t, kind, id), ":" + other + ":";
    CutMakes(text, sep, i);
    t2, id2 := text[..i], text[i + |sep|..];
    assert |id2| > 0 && TrimSpace(id2) == id2;
    CountersMeet(t2, other, id2, t, kind, id);
  }

  lemma SharedIsCut(t: string, kind: string, id: string, t2: string, other: string, id2: string)
    requires TrimSpace(id) != "" && CounterScope(t2, other, id2) == CounterScope(t, kind, id)
    ensures CounterAt(CounterText(t, kind, id), other, |TrimSpace(t2)|)
    ensures other == kind && |TrimSpace(t2)| == |TrimSpace(t)| ==> SameCounter(t2, other, id2, t, kind, id)
  {
    CountersMeet(t2, other, id2, t, kind, id);
    OwnCut(t2, ":" + other + ":", id2);
    OwnCut(t, ":" + kind + ":", id);
  }

  /** A counter is shared with none of kind `other`, itself aside, exactly when its text can be cut into a
      tenant and an id of that kind nowhere else. */
  lemma CounterIsItsOwn(t: string, kind: string, id: string, other: string)
    requires TrimSpace(id) != ""
    ensures (forall t2, id2 :: CounterScope(t2, other, id2) == CounterScope(t, kind, id) ==>
                                 SameCounter(t2, other, id2, t, kind, id))
            <==> forall i: nat :: CounterAt(CounterText(t, kind, id), other, i) ==> other == kind && i == |TrimSpace(t)|
  {
    if i: nat :| CounterAt(CounterText(t, kind, id), other, i) && !(other == kind && i == |TrimSpace(t)|) {
      var t2, id2 := OtherOwner(t, kind, id, other, i);
      assert CounterScope(t2, other, id2) == CounterScope(t, kind, id) && !SameCounter(t2, other, id2, t, kind, id);
    } else {
      forall t2, id2 | CounterScope(t2, other, id2) == CounterScope(t, kind, id)
        ensures SameCounter(t2, other, id2, t, kind, id)
      {
        SharedIsCut(t, kind, id, t2, other, id2);
      }
    }
  }

  predicate SameTrimmed(t1: string, id1: string, t2: string, id2: string) {
    TrimSpace(t1) == TrimSpace(t2) && TrimSpace(id1) == TrimSpace(id2)
  }

  /** A user's key after `notifications:cache:ver:v1:`. */
  function UserText(tenant: string, email: string): string {
    TrimSpace(tenant) + ":" + A.NormalizeEmail(email)
  }

  /** At `i` the text can be cut into a tenant and an email. */
  predicate EmailAt(text: string, i: nat) {
    CutAt(text, ":", i) && A.NormalizeEmail(text[i + 1..]) == text[i + 1..]
  }

  lemma UsersMeet(t1: string, e1: string, t2: string, e2: string)
    ensures UserScope(t1, e1) == UserScope(t2, e2) <==> UserText(t1, e1) == UserText(t2, e2)
  {
    var a, b := [TrimSpace(t1), A.NormalizeEmail(e1)], [TrimSpace(t2), A.NormalizeEmail(e2)];
    JoinFront(USER_VERSIONS, a, b, ':');
    JoinPair(TrimSpace(t1), A.NormalizeEmail(e1), ':');
    JoinPair(TrimSpace(t2), A.NormalizeEmail(e2), ':');
  }

  lemma OwnEmail(tenant: string, email: string)
    ensures var text, i := UserText(tenant, email), |TrimSpace(tenant)|;
            EmailAt(text, i) && text[..i] == TrimSpace(tenant) && text[i + 1..] == A.NormalizeEmail(email)
  {
    A.NormalTwice(email);
    A.NormalIsTrimmed(email);
    OwnCut(tenant, ":", A.NormalizeEmail(email));
  }

  /** A user's counter is no other user's, of any tenant, exactly when its key can be cut into a tenant and a
      normalised email in one way. */
  lemma UserCounterIsItsOwn(t: string, e: string)
    ensures (forall t2, e2 :: UserScope(t2, e2) == UserScope(t, e) ==>
                                TrimSpace(t2) == TrimSpace(t) && A.NormalizeEmail(e2) == A.NormalizeEmail(e))
            <==> forall i: nat :: EmailAt(UserText(t, e), i) ==> i == |TrimSpace(t)|
  {
    var text := UserText(t, e);
    OwnEmail(t, e);
    if i: nat :| EmailAt(text, i) && i != |TrimSpace(t)| {
      var t2, e2 := text[..i], text[i + 1..];
      CutMakes(text, ":", i);
      UsersMeet(t2, e2, t, e);
      assert UserScope(t2, e2) == UserScope(t, e) && |TrimSpace(t2)| == i;
    } else {
      forall t2, e2 | UserScope(t2, e2) == UserScope(t, e)
        ensures TrimSpace(t2) == TrimSpace(t) && A.NormalizeEmail(e2) == A.NormalizeEmail(e)
      {
        UsersMeet(t2, e2, t, e);
        OwnEmail(t2, e2);
      }
    }
  }

  lemma LoanIsNoClient()
    ensures "loan" != "client"
  {
    assert |"loan"| != |"client"|;
  }

  /** For a loan: it is told apart from all other loans of all tenants, and from all clients, exactly when
      its text has no other `:loan:`, and no `:client:`, between trimmed texts. */
  lemma LoanCounterIsItsOwn(t: string, loan: string)
    requires TrimSpace(loan) != ""
    ensures var text := CounterText(t, "loan", loan);
            && ((forall t2, l2 :: LoanScope(t2, l2) == LoanScope(t, loan) ==> SameTrimmed(t2, l2, t, loan)) <==>
                (forall i: nat :: CounterAt(text, "loan", i) ==> i == |TrimSpace(t)|))
            && ((forall t2, c :: ClientScope(t2, c) != LoanScope(t, loan)) <==>
                (forall i: nat :: !CounterAt(text, "client", i)))
  {
    CounterIsItsOwn(t, "loan", loan, "loan");
    CounterIsItsOwn(t, "loan", loan, "client");
    LoanIsNoClient();
    assert forall t2, l2 :: LoanScope(t2, l2) == CounterScope(t2, "loan", l2);
    assert forall t2, c :: ClientScope(t2, c) == CounterScope(t2, "client", c);
  }

  /** The same for a client. */
  lemma ClientCounterIsItsOwn(t: string, client: string)
    requires TrimSpace(client) != ""
    ensures var text := CounterText(t, "client", client);
            && ((forall t2, c2 :: ClientScope(t2, c2) == ClientScope(t, client) ==> SameTrimmed(t2, c2, t, client)) <==>
                (forall i: nat :: CounterAt(text, "client", i) ==> i == |TrimSpace(t)|))
            && ((forall t2, l :: LoanScope(t2, l) != ClientScope(t, client)) <==>
                (forall i: nat :: !CounterAt(text, "loan", i)))
  {
    CounterIsItsOwn(t, "client", client, "client");
    CounterIsItsOwn(t, "client", client, "loan");
    LoanIsNoClient();
    assert forall t2, l :: LoanScope(t2, l) == CounterScope(t2, "loan", l);
    assert forall t2, c2 :: ClientScope(t2, c2) == CounterScope(t2, "client", c2);
  }

  /** The same tenant, or two without a colon. */
  predicate TenantsApart(t1: string, t2: string) {
    TrimSpace(t1) == TrimSpace(t2) || (':' !in t1 && ':' !in t2)
  }

  /** Within one tenant whatever the ids hold, and across tenants that hold no colon, counters are never
      confused. */
  lemma CountersApart(t1: string, kind1: string, id1: string, t2: string, kind2: string, id2: string)
    requires TenantsApart(t1, t2) && ':' !in kind1 && ':' !in kind2 && TrimSpace(id1) != ""
    ensures CounterScope(t1, kind1, id1) == CounterScope(t2, kind2, id2) <==>
            SameCounter(t1, kind1, id1, t2, kind2, id2)
  {
    if TrimSpace(id2) != "" {
      CountersMeet(t1, kind1, id1, t2, kind2, id2);
      if CounterText(t1, kind1, id1) == CounterText(t2, kind2, id2) {
        TextsTell(t1, kind1, id1, t2, kind2, id2);
      }
    }
  }

  lemma TextsTell(t1: string, kind1: string, id1: string, t2: string, kind2: string, id2: string)
    requires TenantsApart(t1, t2) && ':' !in kind1 && ':' !in kind2
    requires CounterText(t1, kind1, id1) == CounterText(t2, kind2, id2)
    ensures SameCounter(t1, kind1, id1, t2, kind2, id2)
  {
    var rest1, rest2 := kind1 + ":" + TrimSpace(id1), kind2 + ":" + TrimSpace(id2);
    TextFront(t1, kind1, id1);
    TextFront(t2, kind2, id2);
    if TrimSpace(t1) == TrimSpace(t2) {
      CancelFront(TrimSpace(t1) + ":", rest1, rest2);
    } else {
      TrimKeepsOut(':', t1);
      TrimKeepsOut(':', t2);
      CutOnce(TrimSpace(t1), rest1, TrimSpace(t2), rest2, ':');
    }
    CutOnce(kind1, TrimSpace(id1), kind2, TrimSpace(id2), ':');
  }

  /** A colon in a tenant can make two loans of two tenants share a counter, or a loan and a client. */
  lemma TenantsCollide()
    ensures LoanScope("a", "x:loan:y") == LoanScope("a:loan:x", "y")
    ensures LoanScope("a", "x:client:y") == ClientScope("a:loan:x", "y")
  {
    TextsCollide();
    CountersMeet("a", "loan", "x:loan:y", "a:loan:x", "loan", "y");
    CountersMeet("a", "loan", "x:client:y", "a:loan:x", "client", "y");
  }

  lemma TextsCollide()
    ensures TrimSpace("x:loan:y") != "" && TrimSpace("x:client:y") != "" && TrimSpace("y") != ""
    ensures CounterText("a", "loan", "x:loan:y") == CounterText("a:loan:x", "loan", "y")
    ensures CounterText("a", "loan", "x:client:y") == CounterText("a:loan:x", "client", "y")
  {
    TrimmedStays("a");
    TrimmedStays("x:loan:y");
    TrimmedStays("x:client:y");
    TrimmedStays("a:loan:x");
    TrimmedStays("y");
  }
}
