/** The read cache for activity lists: which lists it holds, under which keys, and which scopes
    a write invalidates. */
module ActivityCache {
  import opened Text
  import opened Values
  import opened VersionedCache
  import opened Joining
  import Sorting

  type Payload = seq<Field>

  datatype ListRequest = ListRequest(
    tenant: string, email: string, loan: string, loanIDs: seq<string>, client: string,
    agent: string, agentName: string, activityType: string, limit: int, offset: int)

  /** First-page lists scoped to one loan or one client. */
  predicate CacheableList(loan: string, client: string, offset: int) {
    offset == 0 && (TrimSpace(loan) != "" || TrimSpace(client) != "")
  }

  predicate Cacheable(r: ListRequest) {
    CacheableList(r.loan, r.client, r.offset)
  }

  /** Cacheable is a first page of a list that names a loan or a client by more than spaces. */
  lemma CacheableExactly(r: ListRequest)
    ensures Cacheable(r) <==> r.offset == 0 && !(Blank(r.loan) && Blank(r.client))
  {
    BlankIsEmpty(r.loan);
    BlankIsEmpty(r.client);
  }

  function NormalizeEmail(email: string): string {
    ToLower(TrimSpace(email))
  }

  /** Emails count as one when they agree up to case and outer space. */
  lemma NormalizeEmailExactly(a: string, b: string)
    ensures NormalizeEmail(a) == NormalizeEmail(b) <==>
            var s, t := TrimSpace(a), TrimSpace(b); |s| == |t| && forall i :: 0 <= i < |s| ==> SameLetter(s[i], t[i])
  {
    LowerExactly(TrimSpace(a), TrimSpace(b));
  }

  function IdText(loanIDs: seq<string>): string {
    Join(Sorting.Sort(loanIDs), ',')
  }

  /** `digest` is the hex of the truncated SHA-1. */
  function Fingerprint(digest: string -> string, loanIDs: seq<string>): string {
    if |loanIDs| == 0 then "-" else digest(IdText(loanIDs))
  }

  /** Hexadecimal texts: no separator of any key, and not the dash. */
  ghost predicate CleanDigest(digest: string -> string) {
    forall s :: '|' !in digest(s) && ':' !in digest(s) && digest(s) != "-"
  }

  ghost predicate NoCollision(digest: string -> string, a: seq<string>, b: seq<string>) {
    digest(IdText(a)) == digest(IdText(b)) ==> IdText(a) == IdText(b)
  }

  /** Lists of comma-free ids on which the hash does not collide have the same fingerprint exactly when
      one is a permutation of the other. */
  lemma FingerprintIsBag(digest: string -> string, a: seq<string>, b: seq<string>)
    requires CleanDigest(digest) && NoCollision(digest, a, b) && Free(',', a) && Free(',', b)
    ensures Fingerprint(digest, a) == Fingerprint(digest, b) <==> multiset(a) == multiset(b)
    ensures Sorting.Sort(a) == Sorting.Sort(b) <==> multiset(a) == multiset(b)
  {
    Sorting.SortSorts(a);
    Sorting.SortSorts(b);
    assert |multiset(a)| == |a| && |multiset(b)| == |b|;
    if multiset(a) == multiset(b) {
      Sorting.SortIgnoresOrder(a, b);
    } else if Fingerprint(digest, a) == Fingerprint(digest, b) {
      SortStaysFree(a);
      SortStaysFree(b);
      JoinInjective(Sorting.Sort(a), Sorting.Sort(b), ',');
    }
  }

  lemma SortStaysFree(ids: seq<string>)
    requires Free(',', ids)
    ensures Free(',', Sorting.Sort(ids))
  {
    Sorting.SortSorts(ids);
    forall p | p in Sorting.Sort(ids) ensures ',' !in p {
      assert p in multiset(Sorting.Sort(ids));
      assert p in ids;
    }
  }

  // ----- keys of the in-process cache -----

  function ScopeId(tenant: string, id: string): string {
    TrimSpace(tenant) + "|" + TrimSpace(id)
  }

  function LoanScope(tenant: string, loan: string): Scope { Scope("loan", ScopeId(tenant, loan)) }

  function ClientScope(tenant: string, client: string): Scope { Scope("client", ScopeId(tenant, client)) }

  function MemoryRequest(digest: string -> string, r: ListRequest): Request {
    Request([], [LoanScope(r.tenant, r.loan), ClientScope(r.tenant, r.client)],
            [r.tenant, NormalizeEmail(r.email), r.loan, Fingerprint(digest, r.loanIDs), r.client,
             r.agent, r.agentName, r.activityType, Decimal(r.limit), Decimal(r.offset)],
            Sorting.Sort(r.loanIDs))
  }

  /** What an invalidation bumps: a blank id bumps nothing. */
  function MemoryScopes(tenant: string, loan: string, client: string): seq<Scope> {
    (if TrimSpace(loan) != "" then [LoanScope(tenant, loan)] else []) +
    (if TrimSpace(client) != "" then [ClientScope(tenant, client)] else [])
  }

  function BumpAll<V>(s: Store<V>, scopes: seq<Scope>): Store<V>
    decreases scopes
  {
    if |scopes| == 0 then s else BumpAll(Bump(s, scopes[0]), scopes[1..])
  }

  lemma {:induction false} BumpAllAppend<V>(s: Store<V>, a: seq<Scope>, b: seq<Scope>)
    ensures BumpAll(s, a + b) == BumpAll(BumpAll(s, a), b)
    decreases a
  {
    if |a| == 0 {
      assert a + b == b;
    } else {
      assert (a + b)[1..] == a[1..] + b;
      BumpAllAppend(Bump(s, a[0]), a[1..], b);
    }
  }

  lemma BumpBoth<V>(s: Store<V>, tenant: string, loan: string, client: string)
    ensures var first := if TrimSpace(loan) != "" then Bump(s, LoanScope(tenant, loan)) else s;
            BumpAll(s, MemoryScopes(tenant, loan, client))
            == if TrimSpace(client) != "" then Bump(first, ClientScope(tenant, client)) else first
  {
    var loans := if TrimSpace(loan) != "" then [LoanScope(tenant, loan)] else [];
    var clients := if TrimSpace(client) != "" then [ClientScope(tenant, client)] else [];
    BumpAllAppend(s, loans, clients);
  }

  /** A Go map of counters: absent means zero. */
  function Counted(m: map<string, nat>, k: string): nat {
    if k in m then m[k] else 0
  }

  /** A map of counters holds the model's counters of one kind. */
  ghost predicate Mirrors<V>(m: map<string, nat>, s: Store<V>, kind: string) {
    forall k :: Counted(m, k) == Version(s.counters, Scope(kind, k))
  }

  lemma MirrorsBump<V>(m: map<string, nat>, s: Store<V>, kind: string, k: string)
    requires Mirrors(m, s, kind)
    ensures Mirrors(m[k := Counted(m, k) + 1], Bump(s, Scope(kind, k)), kind)
  {
    forall j
      ensures Counted(m[k := Counted(m, k) + 1], j) == Version(Bump(s, Scope(kind, k)).counters, Scope(kind, j))
    {
      assert Counted(m, j) == Version(s.counters, Scope(kind, j));
    }
  }

  lemma MirrorsOther<V>(m: map<string, nat>, s: Store<V>, kind: string, scope: Scope)
    requires Mirrors(m, s, kind) && scope.kind != kind
    ensures Mirrors(m, Bump(s, scope), kind)
  {
    forall j ensures Counted(m, j) == Version(Bump(s, scope).counters, Scope(kind, j)) {
      assert Counted(m, j) == Version(s.counters, Scope(kind, j));
    }
  }

  lemma KindsDiffer()
    ensures "loan" != "client"
  {
    assert |"loan"| != |"client"|;
  }

  lemma TwoVersions(counters: map<Scope, nat>, scopes: seq<Scope>)
    requires |scopes| == 2
    ensures Versions(counters, scopes) == [Version(counters, scopes[0]), Version(counters, scopes[1])]
  {
  }

  lemma TwoDecimals(a: nat, b: nat)
    ensures Decimals([a, b]) == [Decimal(a), Decimal(b)]
  {
  }

  class MemoryReadCache {
    const digest: string -> string
    var loanV: map<string, nat>
    var clientV: map<string, nat>
    var lists: map<string, Payload>
    ghost var model: Store<Payload>

    /** The two counter maps are the model's counters, one kind each. */
    ghost predicate Valid()
      reads this
    {
      Mirrors(loanV, model, "loan") && Mirrors(clientV, model, "client") && model.entries == lists
    }

    constructor (digest: string -> string)
      ensures Valid() && this.digest == digest && model == Store(map[], map[])
    {
      this.digest := digest;
      loanV, clientV, lists := map[], map[], map[];
      model := Store(map[], map[]);
    }

    method Key(r: ListRequest) returns (key: string)
      requires Valid()
      ensures key == CurrentKey('|', model.counters, MemoryRequest(digest, r))
    {
      var loanVer := Counted(loanV, ScopeId(r.tenant, r.loan));
      var clientVer := Counted(clientV, ScopeId(r.tenant, r.client));
      var fields := [r.tenant, NormalizeEmail(r.email), r.loan, Fingerprint(digest, r.loanIDs), r.client,
                     r.agent, r.agentName, r.activityType, Decimal(r.limit), Decimal(r.offset)];
      key := Join([Decimal(loanVer), Decimal(clientVer)] + fields, '|');
      ghost var m := MemoryRequest(digest, r);
      TwoVersions(model.counters, m.scopes);
      TwoDecimals(loanVer, clientVer);
      assert m.prefix + Decimals([loanVer, clientVer]) == Decimals([loanVer, clientVer]);
    }

    method GetList(r: ListRequest) returns (payload: Option<Payload>)
      requires Valid()
      ensures payload == if Cacheable(r) then Cached('|', model, MemoryRequest(digest, r)) else None
    {
      if !Cacheable(r) {
        return None;
      }
      var key := Key(r);
      payload := Find(lists, key);
    }

    method SetList(r: ListRequest, payload: Option<Payload>)
      requires Valid()
      modifies this
      ensures Valid()
      ensures model == if Cacheable(r) && payload.Some?
                       then Put('|', old(model), MemoryRequest(digest, r), payload.value) else old(model)
    {
      if !Cacheable(r) || payload == None {
        return;
      }
      var key := Key(r);
      lists := lists[key := payload.value];
      model := Put('|', model, MemoryRequest(digest, r), payload.value);
    }

    method InvalidateScopes(tenant: string, loan: string, client: string)
      requires Valid()
      modifies this
      ensures Valid()
      ensures model == BumpAll(old(model), MemoryScopes(tenant, loan, client))
    {
      BumpBoth(model, tenant, loan, client);
      KindsDiffer();
      if TrimSpace(loan) != "" {
        var k := ScopeId(tenant, loan);
        MirrorsBump(loanV, model, "loan", k);
        MirrorsOther(clientV, model, "client", LoanScope(tenant, loan));
        loanV := loanV[k := Counted(loanV, k) + 1];
        model := Bump(model, LoanScope(tenant, loan));
      }
      if TrimSpace(client) != "" {
        var k := ScopeId(tenant, client);
        MirrorsBump(clientV, model, "client", k);
        MirrorsOther(loanV, model, "loan", ClientScope(tenant, client));
        clientV := clientV[k := Counted(clientV, k) + 1];
        model := Bump(model, ClientScope(tenant, client));
      }
    }
  }

  // ----- refinement of eager deletion -----

  datatype CacheOp =
    | GetList(req: ListRequest)
    | SetList(req: ListRequest, payload: Option<Payload>)
    | InvalidateScopes(tenant: string, loan: string, client: string)

  predicate PipeFree(r: ListRequest) {
    && '|' !in r.tenant && '|' !in r.email && '|' !in r.loan && '|' !in r.client
    && '|' !in r.agent && '|' !in r.agentName && '|' !in r.activityType && Free(',', r.loanIDs)
  }

  lemma LowerKeepsOut(c: char, s: string)
    requires c !in s && !('a' <= c <= 'z')
    ensures c !in ToLower(s)
  {
  }

  lemma PipeFreeRequest(digest: string -> string, r: ListRequest)
    requires PipeFree(r) && CleanDigest(digest)
    ensures SepFree('|', MemoryRequest(digest, r))
  {
    TrimSpaceTrims(r.email);
    LowerKeepsOut('|', TrimSpace(r.email));
    DecimalChars(r.limit);
    DecimalChars(r.offset);
  }

  /** A pipe-free request shares its keys with no other request, whatever the other's fields hold. */
  lemma PipeFreeDistinct(digest: string -> string, a: ListRequest, b: ListRequest)
    requires PipeFree(a) && Free(',', b.loanIDs) && CleanDigest(digest) && NoCollision(digest, a.loanIDs, b.loanIDs)
    ensures Distinct('|', MemoryRequest(digest, a), MemoryRequest(digest, b))
  {
    PipeFreeRequest(digest, a);
    FingerprintIsBag(digest, a.loanIDs, b.loanIDs);
    var p, q := MemoryRequest(digest, a), MemoryRequest(digest, b);
    assert p.body == q.body ==>
        p.body[0] == q.body[0] && p.body[2] == q.body[2] && p.body[3] == q.body[3] && p.body[4] == q.body[4];
    SameShapeDistinct('|', p, q);
  }

  ghost predicate AllPipeFree(digest: string -> string, ops: seq<CacheOp>) {
    && (forall i :: 0 <= i < |ops| && !ops[i].InvalidateScopes? ==> PipeFree(ops[i].req))
    && (forall i, j :: 0 <= i < |ops| && 0 <= j < |ops| && !ops[i].InvalidateScopes? && !ops[j].InvalidateScopes? ==>
          NoCollision(digest, ops[i].req.loanIDs, ops[j].req.loanIDs))
  }

  /** What the calls of `MemoryReadCache` answer, one after the other. */
  function Replies(digest: string -> string, s: Store<Payload>, ops: seq<CacheOp>): seq<Option<Payload>>
    decreases ops
  {
    if |ops| == 0 then []
    else
      match ops[0]
      case GetList(r) =>
        [if Cacheable(r) then Cached('|', s, MemoryRequest(digest, r)) else None] + Replies(digest, s, ops[1..])
      case SetList(r, payload) =>
        var stored := if Cacheable(r) && payload.Some? then Put('|', s, MemoryRequest(digest, r), payload.value) else s;
        Replies(digest, stored, ops[1..])
      case InvalidateScopes(tenant, loan, client) =>
        Replies(digest, BumpAll(s, MemoryScopes(tenant, loan, client)), ops[1..])
  }

  // The reference: a map of lists, without keys, versions or hashes.

  /** What two requests have to agree in to be the same question. */
  function Normal(r: ListRequest): ListRequest {
    r.(email := NormalizeEmail(r.email), loanIDs := Sorting.Sort(r.loanIDs))
  }

  predicate FirstPage(r: ListRequest) {
    r.offset == 0 && !(Blank(r.loan) && Blank(r.client))
  }

  /** The list belongs to that loan, or to that client, of that tenant. */
  predicate Affects(tenant: string, loan: string, client: string, r: ListRequest) {
    && TrimSpace(r.tenant) == TrimSpace(tenant)
    && ((!Blank(loan) && TrimSpace(r.loan) == TrimSpace(loan))
        || (!Blank(client) && TrimSpace(r.client) == TrimSpace(client)))
  }

  function Deleted(lists: map<ListRequest, Payload>, tenant: string, loan: string, client: string)
    : map<ListRequest, Payload>
  {
    map r | r in lists && !Affects(tenant, loan, client, r) :: lists[r]
  }

  function ReferenceReplies(lists: map<ListRequest, Payload>, ops: seq<CacheOp>): seq<Option<Payload>>
    decreases ops
  {
    if |ops| == 0 then []
    else
      match ops[0]
      case GetList(r) => [if FirstPage(r) then Find(lists, Normal(r)) else None] + ReferenceReplies(lists, ops[1..])
      case SetList(r, payload) =>
        ReferenceReplies(if FirstPage(r) && payload.Some? then lists[Normal(r) := payload.value] else lists, ops[1..])
      case InvalidateScopes(tenant, loan, client) => ReferenceReplies(Deleted(lists, tenant, loan, client), ops[1..])
  }

  lemma RequestIsNormal(digest: string -> string, a: ListRequest, b: ListRequest)
    ensures MemoryRequest(digest, a) == MemoryRequest(digest, b) <==> Normal(a) == Normal(b)
  {
    var p, q := MemoryRequest(digest, a), MemoryRequest(digest, b);
    if p == q {
      assert p.body[0] == q.body[0] && p.body[1] == q.body[1] && p.body[2] == q.body[2] && p.body[4] == q.body[4];
      assert p.body[5] == q.body[5] && p.body[6] == q.body[6] && p.body[7] == q.body[7];
      assert p.body[8] == q.body[8] && p.body[9] == q.body[9];
      DecimalInjective(a.limit, b.limit);
      DecimalInjective(a.offset, b.offset);
    }
    if Normal(a) == Normal(b) {
      Sorting.SortSorts(a.loanIDs);
      Sorting.SortSorts(b.loanIDs);
      assert NormalizeEmail(a.email) == Normal(a).email && NormalizeEmail(b.email) == Normal(b).email;
      assert Fingerprint(digest, a.loanIDs) == Fingerprint(digest, b.loanIDs);
    }
  }

  /** The bar in a scope id is the only one of a pipe-free request's. */
  lemma ScopeIsOwn(t1: string, id1: string, t2: string, id2: string)
    requires '|' !in t1 && '|' !in id1
    ensures ScopeId(t1, id1) == ScopeId(t2, id2) <==>
            TrimSpace(t1) == TrimSpace(t2) && TrimSpace(id1) == TrimSpace(id2)
  {
    TrimSpaceTrims(t1);
    TrimSpaceTrims(id1);
    var a, b := [TrimSpace(t1), TrimSpace(id1)], [TrimSpace(t2), TrimSpace(id2)];
    JoinPair(TrimSpace(t1), TrimSpace(id1), '|');
    JoinPair(TrimSpace(t2), TrimSpace(id2), '|');
    if ScopeId(t1, id1) == ScopeId(t2, id2) {
      JoinDetermines(a, b, '|');
      assert a[0] == b[0] && a[1] == b[1];
    }
  }

  /** The entries of the keyed store that eager deletion leaves are those of the reference. */
  ghost predicate Agrees(digest: string -> string, reqs: set<ListRequest>, keyed: map<Request, Payload>,
                         lists: map<ListRequest, Payload>)
  {
    forall r :: r in reqs ==> Find(keyed, MemoryRequest(digest, r)) == Find(lists, Normal(r))
  }

  function KeyRequests(digest: string -> string, reqs: set<ListRequest>): set<Request> {
    set r | r in reqs :: MemoryRequest(digest, r)
  }

  function DropBoth(keyed: map<Request, Payload>, tenant: string, loan: string, client: string): map<Request, Payload> {
    var first := if TrimSpace(loan) != "" then Drop(keyed, LoanScope(tenant, loan)) else keyed;
    if TrimSpace(client) != "" then Drop(first, ClientScope(tenant, client)) else first
  }

  lemma BumpBothSimulates(reqs: set<Request>, s: Store<Payload>, keyed: map<Request, Payload>,
                          tenant: string, loan: string, client: string)
    requires AllDistinct('|', reqs) && Simulates('|', reqs, s, keyed)
    ensures Simulates('|', reqs, BumpAll(s, MemoryScopes(tenant, loan, client)), DropBoth(keyed, tenant, loan, client))
  {
    BumpBoth(s, tenant, loan, client);
    var first, kept := s, keyed;
    if TrimSpace(loan) != "" {
      BumpSimulates('|', reqs, s, keyed, LoanScope(tenant, loan));
      first, kept := Bump(s, LoanScope(tenant, loan)), Drop(keyed, LoanScope(tenant, loan));
    }
    if TrimSpace(client) != "" {
      BumpSimulates('|', reqs, first, kept, ClientScope(tenant, client));
    }
  }

  lemma ScopesAffect(digest: string -> string, r: ListRequest, tenant: string, loan: string, client: string)
    requires PipeFree(r)
    ensures Affects(tenant, loan, client, r) <==>
            || (TrimSpace(loan) != "" && LoanScope(tenant, loan) in MemoryRequest(digest, r).scopes)
            || (TrimSpace(client) != "" && ClientScope(tenant, client) in MemoryRequest(digest, r).scopes)
    ensures Affects(tenant, loan, client, Normal(r)) <==> Affects(tenant, loan, client, r)
  {
    KindsDiffer();
    BlankIsEmpty(loan);
    BlankIsEmpty(client);
    ScopeIsOwn(r.tenant, r.loan, tenant, loan);
    ScopeIsOwn(r.tenant, r.client, tenant, client);
    var scopes := MemoryRequest(digest, r).scopes;
    assert scopes == [LoanScope(r.tenant, r.loan), ClientScope(r.tenant, r.client)];
    assert LoanScope(tenant, loan) in scopes <==> LoanScope(tenant, loan) == LoanScope(r.tenant, r.loan);
    assert ClientScope(tenant, client) in scopes <==> ClientScope(tenant, client) == ClientScope(r.tenant, r.client);
  }

  lemma DeletedAgrees(digest: string -> string, reqs: set<ListRequest>, keyed: map<Request, Payload>,
                      lists: map<ListRequest, Payload>, tenant: string, loan: string, client: string)
    requires Agrees(digest, reqs, keyed, lists) && forall r :: r in reqs ==> PipeFree(r)
    ensures Agrees(digest, reqs, DropBoth(keyed, tenant, loan, client), Deleted(lists, tenant, loan, client))
  {
    forall r | r in reqs
      ensures Find(DropBoth(keyed, tenant, loan, client), MemoryRequest(digest, r))
              == Find(Deleted(lists, tenant, loan, client), Normal(r))
    {
      ScopesAffect(digest, r, tenant, loan, client);
      assert Find(keyed, MemoryRequest(digest, r)) == Find(lists, Normal(r));
    }
  }

  lemma StoredAgrees(digest: string -> string, reqs: set<ListRequest>, keyed: map<Request, Payload>,
                     lists: map<ListRequest, Payload>, q: ListRequest, payload: Payload)
    requires Agrees(digest, reqs, keyed, lists)
    ensures Agrees(digest, reqs, keyed[MemoryRequest(digest, q) := payload], lists[Normal(q) := payload])
  {
    forall r | r in reqs
      ensures Find(keyed[MemoryRequest(digest, q) := payload], MemoryRequest(digest, r))
              == Find(lists[Normal(q) := payload], Normal(r))
    {
      RequestIsNormal(digest, r, q);
      assert Find(keyed, MemoryRequest(digest, r)) == Find(lists, Normal(r));
    }
  }

  lemma {:induction false} RepliesAgree(digest: string -> string, reqs: set<ListRequest>, s: Store<Payload>,
                                        keyed: map<Request, Payload>, lists: map<ListRequest, Payload>,
                                        ops: seq<CacheOp>)
    requires AllDistinct('|', KeyRequests(digest, reqs)) && forall r :: r in reqs ==> PipeFree(r)
    requires forall i :: 0 <= i < |ops| && !ops[i].InvalidateScopes? ==> ops[i].req in reqs
    requires Simulates('|', KeyRequests(digest, reqs), s, keyed) && Agrees(digest, reqs, keyed, lists)
    ensures Replies(digest, s, ops) == ReferenceReplies(lists, ops)
    decreases ops
  {
    if |ops| > 0 {
      var rest := ops[1..];
      assert forall i :: 0 <= i < |rest| ==> rest[i] == ops[i + 1];
      match ops[0]
      case GetList(r) =>
        CacheableExactly(r);
        assert MemoryRequest(digest, r) in KeyRequests(digest, reqs);
        RepliesAgree(digest, reqs, s, keyed, lists, rest);
      case SetList(r, payload) =>
        CacheableExactly(r);
        assert MemoryRequest(digest, r) in KeyRequests(digest, reqs);
        if Cacheable(r) && payload.Some? {
          PutSimulates('|', KeyRequests(digest, reqs), s, keyed, MemoryRequest(digest, r), payload.value);
          StoredAgrees(digest, reqs, keyed, lists, r, payload.value);
          RepliesAgree(digest, reqs, Put('|', s, MemoryRequest(digest, r), payload.value),
                       keyed[MemoryRequest(digest, r) := payload.value], lists[Normal(r) := payload.value], rest);
        } else {
          RepliesAgree(digest, reqs, s, keyed, lists, rest);
        }
      case InvalidateScopes(tenant, loan, client) =>
        BumpBothSimulates(KeyRequests(digest, reqs), s, keyed, tenant, loan, client);
        DeletedAgrees(digest, reqs, keyed, lists, tenant, loan, client);
        RepliesAgree(digest, reqs, BumpAll(s, MemoryScopes(tenant, loan, client)),
                     DropBoth(keyed, tenant, loan, client), Deleted(lists, tenant, loan, client), rest);
    }
  }

  /** Over every sequence of calls whose requests are free of '|', the in-process cache gives the same answers as
      a plain map of lists: each list under its tenant, email up to case and space, loan, bag of loan ids, client,
      agent, names, limit and offset; nothing but first pages of a loan or client; and every list of an
      invalidated loan or client deleted. */
  lemma MemoryCacheRefinesDeletion(digest: string -> string, ops: seq<CacheOp>)
    requires AllPipeFree(digest, ops) && CleanDigest(digest)
    ensures Replies(digest, Store(map[], map[]), ops) == ReferenceReplies(map[], ops)
  {
    var reqs := set i | 0 <= i < |ops| && !ops[i].InvalidateScopes? :: ops[i].req;
    forall p, q | p in KeyRequests(digest, reqs) && q in KeyRequests(digest, reqs) ensures Distinct('|', p, q) {
      var a :| a in reqs && p == MemoryRequest(digest, a);
      var b :| b in reqs && q == MemoryRequest(digest, b);
      PipeFreeDistinct(digest, a, b);
    }
    RepliesAgree(digest, reqs, Store(map[], map[]), map[], map[], ops);
  }

  /** For separator-free tenants and ids, two scopes are one exactly when both agree after trimming. */
  lemma ScopeIsTenantAndId(t1: string, id1: string, t2: string, id2: string)
    requires '|' !in t1 && '|' !in id1 && '|' !in t2 && '|' !in id2
    ensures ScopeId(t1, id1) == ScopeId(t2, id2) <==>
            TrimSpace(t1) == TrimSpace(t2) && TrimSpace(id1) == TrimSpace(id2)
  {
    TrimSpaceTrims(t1);
    TrimSpaceTrims(t2);
    TrimSpaceTrims(id1);
    TrimSpaceTrims(id2);
    var a, b := [TrimSpace(t1), TrimSpace(id1)], [TrimSpace(t2), TrimSpace(id2)];
    JoinPair(TrimSpace(t1), TrimSpace(id1), '|');
    JoinPair(TrimSpace(t2), TrimSpace(id2), '|');
    if ScopeId(t1, id1) == ScopeId(t2, id2) {
      JoinInjective(a, b, '|');
      assert a[0] == b[0] && a[1] == b[1];
    }
  }

  // ----- separators inside the fields -----

  function Filters(r: ListRequest): seq<string> {
    [r.client, r.agent, r.agentName, r.activityType]
  }

  function Place(r: ListRequest): seq<string> {
    [r.tenant, NormalizeEmail(r.email), r.loan]
  }

  predicate SameButFilters(a: ListRequest, b: ListRequest) {
    b == a.(client := b.client, agent := b.agent, agentName := b.agentName, activityType := b.activityType)
  }

  predicate SameButPlace(a: ListRequest, b: ListRequest) {
    b == a.(tenant := b.tenant, email := b.email, loan := b.loan)
  }

  function KeyAt(digest: string -> string, v: seq<nat>, r: ListRequest): string {
    KeyOf('|', v, MemoryRequest(digest, r))
  }

  lemma KeyGroups(digest: string -> string, v: seq<nat>, r: ListRequest)
    ensures Parts(v, MemoryRequest(digest, r))
         == (Decimals(v) + Place(r) + [Fingerprint(digest, r.loanIDs)]) + Filters(r)
             + [Decimal(r.limit), Decimal(r.offset)]
    ensures Parts(v, MemoryRequest(digest, r))
         == Decimals(v) + Place(r)
             + ([Fingerprint(digest, r.loanIDs)] + Filters(r) + [Decimal(r.limit), Decimal(r.offset)])
  {
  }

  lemma FilterText(digest: string -> string, v: seq<nat>, a: ListRequest, b: ListRequest)
    requires SameButFilters(a, b)
    ensures KeyAt(digest, v, a) == KeyAt(digest, v, b) <==> Join(Filters(a), '|') == Join(Filters(b), '|')
  {
    KeyGroups(digest, v, a);
    KeyGroups(digest, v, b);
    JoinMiddle(Decimals(v) + Place(a) + [Fingerprint(digest, a.loanIDs)], Filters(a), Filters(b),
               [Decimal(a.limit), Decimal(a.offset)], '|');
  }

  /** A request is told apart from all that differ from it in client, agent, agent name or activity type
      exactly when none of these four holds a '|'. */
  lemma FilterPipesExactly(digest: string -> string, v: seq<nat>, a: ListRequest)
    ensures (forall b :: SameButFilters(a, b) && KeyAt(digest, v, b) == KeyAt(digest, v, a) ==> b == a)
            <==> Free('|', Filters(a))
  {
    if Free('|', Filters(a)) {
      forall b | SameButFilters(a, b) && KeyAt(digest, v, b) == KeyAt(digest, v, a) ensures b == a {
        FilterText(digest, v, a, b);
        JoinDetermines(Filters(a), Filters(b), '|');
        assert Filters(a)[0] == Filters(b)[0] && Filters(a)[1] == Filters(b)[1];
        assert Filters(a)[2] == Filters(b)[2] && Filters(a)[3] == Filters(b)[3];
      }
    } else {
      var other := Twin(Filters(a), '|');
      var b := a.(client := other[0], agent := other[1], agentName := other[2], activityType := other[3]);
      assert Filters(b) == other;
      FilterText(digest, v, a, b);
    }
  }

  /** Such a pair of requests, sharing an entry. */
  lemma PipesCollide(digest: string -> string, payload: Payload)
    ensures var a := ListRequest("t", "e", "L", [], "", "", "x|y", "", 20, 0);
            var b := ListRequest("t", "e", "L", [], "", "", "x", "y|", 20, 0);
            && a.agentName != b.agentName && Cacheable(a) && Cacheable(b)
            && Cached('|', Put('|', Store(map[], map[]), MemoryRequest(digest, a), payload), MemoryRequest(digest, b))
               == Some(payload)
  {
    var a := ListRequest("t", "e", "L", [], "", "", "x|y", "", 20, 0);
    var b := ListRequest("t", "e", "L", [], "", "", "x", "y|", 20, 0);
    MoveSep("x", "y", "", '|');
    assert Filters(a) == ["", ""] + ["x|y", ""] && Filters(b) == ["", ""] + ["x", "y|"];
    JoinFront(["", ""], ["x|y", ""], ["x", "y|"], '|');
    FilterText(digest, Versions(map[], MemoryRequest(digest, a).scopes), a, b);
    assert TrimSpace("L") == "L";
  }

  lemma NormalTwice(email: string)
    ensures NormalizeEmail(NormalizeEmail(email)) == NormalizeEmail(email)
  {
    TrimSpaceTrims(email);
    var t := TrimSpace(email);
    assert Trimmed(ToLower(t));
    assert TrimSpace(ToLower(t)) == ToLower(t);
  }

  lemma NormalIsTrimmed(email: string)
    ensures TrimSpace(NormalizeEmail(email)) == NormalizeEmail(email)
  {
    TrimSpaceTrims(email);
    TrimmedStays(NormalizeEmail(email));
  }

  /** Two bars between which there is a normalised email. */
  predicate SplitsAt(text: string, i: nat, j: nat) {
    && i < j < |text| && text[i] == '|' && text[j] == '|'
    && NormalizeEmail(text[i + 1..j]) == text[i + 1..j]
  }

  lemma PlaceText(digest: string -> string, v: seq<nat>, a: ListRequest, b: ListRequest)
    requires SameButPlace(a, b)
    ensures KeyAt(digest, v, a) == KeyAt(digest, v, b) <==> Join(Place(a), '|') == Join(Place(b), '|')
  {
    KeyGroups(digest, v, a);
    KeyGroups(digest, v, b);
    JoinMiddle(Decimals(v), Place(a), Place(b),
               [Fingerprint(digest, a.loanIDs)] + Filters(a) + [Decimal(a.limit), Decimal(a.offset)], '|');
  }

  lemma PlaceSplits(r: ListRequest)
    ensures var text, i := Join(Place(r), '|'), |r.tenant|;
            var j := i + 1 + |NormalizeEmail(r.email)|;
            && SplitsAt(text, i, j)
            && text[..i] == r.tenant && text[i + 1..j] == NormalizeEmail(r.email) && text[j + 1..] == r.loan
  {
    var e := NormalizeEmail(r.email);
    JoinTriple(r.tenant, e, r.loan, '|');
    NormalTwice(r.email);
    var text, i := Join(Place(r), '|'), |r.tenant|;
    assert text == r.tenant + "|" + (e + "|" + r.loan);
    assert text[i + 1..] == e + "|" + r.loan;
    assert text[i + 1..i + 1 + |e|] == e;
  }

  lemma SplitPlace(a: ListRequest, i: nat, j: nat) returns (b: ListRequest)
    requires SplitsAt(Join(Place(a), '|'), i, j)
    ensures SameButPlace(a, b) && Join(Place(b), '|') == Join(Place(a), '|')
    ensures |b.tenant| == i && i + 1 + |NormalizeEmail(b.email)| == j
  {
    var text := Join(Place(a), '|');
    b := a.(tenant := text[..i], email := text[i + 1..j], loan := text[j + 1..]);
    JoinTriple(b.tenant, b.email, b.loan, '|');
    assert text == text[..i] + "|" + (text[i + 1..j] + "|" + text[j + 1..]);
  }

  /** Tenant, email and loan are the only way to read the text they make. */
  ghost predicate ReadsOneWay(a: ListRequest) {
    forall i: nat, j: nat :: SplitsAt(Join(Place(a), '|'), i, j) ==>
                               i == |a.tenant| && j == i + 1 + |NormalizeEmail(a.email)|
  }

  lemma OneWayIsTold(digest: string -> string, v: seq<nat>, a: ListRequest, b: ListRequest)
    requires ReadsOneWay(a) && SameButPlace(a, b) && KeyAt(digest, v, b) == KeyAt(digest, v, a)
    ensures Place(b) == Place(a)
  {
    PlaceText(digest, v, a, b);
    SamePlace(a, b);
  }

  lemma SamePlace(a: ListRequest, b: ListRequest)
    requires ReadsOneWay(a) && Join(Place(b), '|') == Join(Place(a), '|')
    ensures Place(b) == Place(a)
  {
    PlaceSplits(a);
    PlaceSplits(b);
    assert |b.tenant| == |a.tenant| && |NormalizeEmail(b.email)| == |NormalizeEmail(a.email)|;
    assert b.tenant == a.tenant && NormalizeEmail(b.email) == NormalizeEmail(a.email) && b.loan == a.loan;
  }

  lemma OtherWayIsTaken(digest: string -> string, v: seq<nat>, a: ListRequest) returns (b: ListRequest)
    requires !ReadsOneWay(a)
    ensures SameButPlace(a, b) && KeyAt(digest, v, b) == KeyAt(digest, v, a) && Place(b) != Place(a)
  {
    var i: nat, j: nat :| SplitsAt(Join(Place(a), '|'), i, j)
                          && !(i == |a.tenant| && j == i + 1 + |NormalizeEmail(a.email)|);
    b := SplitPlace(a, i, j);
    PlaceText(digest, v, a, b);
    assert Place(b)[0] != Place(a)[0] || Place(b)[1] != Place(a)[1];
  }

  /** A request is told apart from all that differ from it in tenant, email or loan exactly when the
      text these three make has no other two bars with a normalised email between them. A bar in the
      tenant, say, does no harm when an upper-case letter follows it. */
  lemma PlacePipesExactly(digest: string -> string, v: seq<nat>, a: ListRequest)
    ensures (forall b :: SameButPlace(a, b) && KeyAt(digest, v, b) == KeyAt(digest, v, a) ==> Place(b) == Place(a))
            <==> ReadsOneWay(a)
  {
    if ReadsOneWay(a) {
      forall b | SameButPlace(a, b) && KeyAt(digest, v, b) == KeyAt(digest, v, a) ensures Place(b) == Place(a) {
        OneWayIsTold(digest, v, a, b);
      }
    } else {
      var b := OtherWayIsTaken(digest, v, a);
    }
  }
}
