/** Hits in histories in which every cache read and write comes from a real query. */
module RedisHits {
  import opened VersionedCache
  import opened RedisTimeline
  import opened RedisKeys
  import A = ActivityCache

  /** `asked` names the query behind each write and fetch: key-safe, and written with its cache's TTL. */
  ghost predicate FromQueries(h: History, digest: string -> string, asked: seq<Query>) {
    && |asked| == |h.trace| && h.sep == ':'
    && forall n :: 0 <= n < |asked| ==> AskedAt(h.trace[n], digest, asked[n])
  }

  ghost predicate AskedAt(c: Command, digest: string -> string, q: Query) {
    && (c.Write? || c.Fetch? ==> KeySafe(q) && c.req == RequestOf(digest, q))
    && (c.Write? ==> c.ttl == TtlOf(q))
  }

  ghost predicate NoClashes(digest: string -> string, asked: seq<Query>) {
    forall m, n :: 0 <= m < |asked| && 0 <= n < |asked| ==> NoClash(digest, asked[m], asked[n])
  }

  lemma QueriesAreDistinct(h: History, digest: string -> string, asked: seq<Query>)
    requires FromQueries(h, digest, asked) && NoClashes(digest, asked) && A.CleanDigest(digest)
    ensures AllDistinct(h.sep, h.Reqs())
  {
    forall p, q | p in h.Reqs() && q in h.Reqs() ensures Distinct(h.sep, p, q) {
      var m := WasAsked(h, digest, asked, p);
      var n := WasAsked(h, digest, asked, q);
      SafeQueriesDistinct(digest, asked[m], asked[n]);
    }
  }

  lemma WasAsked(h: History, digest: string -> string, asked: seq<Query>, req: Request) returns (n: nat)
    requires FromQueries(h, digest, asked) && req in h.Reqs()
    ensures n < |asked| && KeySafe(asked[n]) && req == RequestOf(digest, asked[n])
  {
    n :| n < |h.trace| && (h.trace[n].Write? || h.trace[n].Fetch?) && h.trace[n].req == req;
    assert AskedAt(h.trace[n], digest, asked[n]);
  }

  /** Every hit was stored for the same normalised query within that cache's TTL (25 seconds for lists,
      45 for unread counts, 30 for pages), and no bump of any of its scopes lies between the version read
      of the writer and its own, unless the counter was due to expire before the entry. */
  lemma HitsAreRecentAndFresh(h: History, digest: string -> string, asked: seq<Query>, q: nat)
    requires h.WellFormed() && FromQueries(h, digest, asked) && NoClashes(digest, asked) && A.CleanDigest(digest)
    requires q < |h.trace| && h.trace[q].Fetch? && h.Hit(q).Some?
    ensures var p := h.Hit(q).value.writer;
            && p < q && h.trace[p].Write? && Normalized(asked[p]) == Normalized(asked[q])
            && h.Now(q) < h.Now(p) + TtlOf(asked[q])
            && TtlOf(asked[q]) == (match asked[q] case ActivityList(_) => 25_000
                                                  case Unread(_, _) => 45_000
                                                  case NotificationPage(_) => 30_000)
            && |h.trace[p].readAt| == |h.trace[q].readAt| == |h.trace[p].req.scopes| == |h.trace[q].req.scopes|
            && forall j :: 0 <= j < |h.trace[q].req.scopes| ==>
                 && h.trace[p].readAt[j] < p
                 && (h.Outlasts(p, j) ==>
                       h.NoBump(h.trace[q].req.scopes[j], h.trace[p].readAt[j], h.trace[q].readAt[j]))
  {
    QueriesAreDistinct(h, digest, asked);
    HitHasWriter(h, q);
    var p := h.Hit(q).value.writer;
    assert AskedAt(h.trace[p], digest, asked[p]) && AskedAt(h.trace[q], digest, asked[q]);
    SameTtl(digest, asked[p], asked[q]);
    assert h.FollowsProgram(p) && h.FollowsProgram(q);
    forall j | 0 <= j < |h.trace[q].req.scopes|
      ensures h.trace[p].readAt[j] < p
      ensures h.Outlasts(p, j) ==> h.NoBump(h.trace[q].req.scopes[j], h.trace[p].readAt[j], h.trace[q].readAt[j])
    {
      HitIsFresh(h, q, j);
    }
  }

  lemma SameTtl(digest: string -> string, a: Query, b: Query)
    requires RequestOf(digest, a) == RequestOf(digest, b)
    ensures Normalized(a) == Normalized(b) && TtlOf(a) == TtlOf(b)
  {
    RequestTellsQuery(digest, a, b);
    Shape(digest, a);
    Shape(digest, b);
  }
}
