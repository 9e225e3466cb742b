# Activity-log BFF: a verified model

This project models the parts of the collections BFF whose correctness spans more than one
function: the notification stream, the read caches and the use cases that fill and invalidate
them, field encryption, stateless crypto sessions, the rate limiter, the identity cache, the
route policy, page cursors, batch normalisation and list pages. Code that changes state step by
step is modelled by classes and methods with loops, each proved against a specification
function; the promises are then theorems about those functions over every input, every run or
every interleaving.

`dafny verify dfyconfig.toml` checks everything.

| module | file | models |
|---|---|---|
| Text, Joining, Values, Sorting | text.dfy, joining.dfy, values.dfy, sorting.dfy | trimming, decimal numbers, join and split, what joined keys determine, dynamic JSON values, `sort.Strings` |
| Stream, StreamDelivery | stream.dfy, stream_delivery.dfy | one SSE stream; Core's log, the publisher, the channel and the stream as a step system |
| VersionedCache | versioned_cache.dfy | a cache keyed by counters, and the cache that deletes eagerly |
| ActivityCache, NotificationCache | activity_cache.dfy, notification_cache.dfy | the two in-process caches |
| RedisTimeline, RedisClient, RedisKeys, RedisHits | redis_timeline.dfy, redis_client.dfy, redis_keys.dfy, redis_hits.dfy | Redis as timed histories of single commands, with expiring entries and counters; the keys, and the hits of real queries |
| ActivityUsecase, NotificationUsecase | activity_usecase.dfy, notification_usecase.dfy | cache-aside reads and invalidating writes, command by command |
| RateLimit, IdentityCache | rate_limit.dfy, identity_cache.dfy | the sliding window and the bounded TTL cache |
| Base64Url, Envelopes, FieldCrypto | base64url.dfy, envelope.dfy, field_crypto.dfy | the codec chain from JSON trees to `enc:v1` strings and back |
| Sessions | sessions.dfy | key ring, handshake, token resolution |
| RoutePolicy, Cursor, Batch, Page | route_policy.dfy, cursor.dfy, batch.dfy, page.dfy | route templates, notification cursors, batch payloads, list pages |

## How to read the results

**What is taken as given.** AES-GCM, HMAC, SHA-1, SHA-256, ECDH with HKDF, JWT signing and JSON text are
functions collected in a `Suite`; a lemma names the laws it needs (`Lawful`, `OpensSealed`): what
was sealed opens, what was printed parses, what was signed verifies. Unforgeability is a separate hypothesis
(`Unforged`, `Authentic`, `NotForged`), stated so that it can hold together with the other laws of the same lemma.
Clocks, random draws and Core's answers are parameters.

**Methods, specifications and meanings.** A method with state or loops is proved equal to a specification function. What such a
function means is then stated without it: by a reference without keys or versions (`ReferenceReplies`), by what is handed over
(`Course.Handed`), by `Lookup` in the payload (`LoanIs`, `Wrong`), or by the parts of a text (`Presents`, `PartsOf`).

**Where the code does less than its comments or its callers suggest.** Each of these is proved, with a concrete
input or with the exact condition:

- A JSON id arrives as a float64, which prints with an exponent from 1,000,000 on; such events are never
  delivered (`StreamDelivery.LargeIdsNeverArrive`).
- When the catch-up request leaves out an event, a later message hides it for good. Right after the catch-up an
  event can still be lost exactly when more than `limit` events were owed and the next message can be a decodable one
  (`CatchUpLosesExactly`, and `TruncatedCatchUpCanLose` from the very start).
- A stale Redis list is served after a create only if its writer loaded from Core before the commit and asked
  for the version after the bump (`StaleOnlyByRace`), and from every history that schedule does serve one
  (`ActivityUsecase.RaceServesStale`). Besides, a version counter that expires between its
  reading and the end of an entry written under it can bring a bumped entry back, and only such a counter can (`ExpiryIsExact`,
  `ListExpiryIsExact`, `UndisturbedExpiryIsExact`).
- The Redis list key runs agent name and activity type together with a `|`, so two different questions to Core can share an entry
  (`MergedNamesCollide`; exactly which, in `MergedTextsExactly` and `NamesToldExactly`). A colon can move between neighbouring
  fields of that key in the same way (`AgentNamesCollide`; exactly when, in `AgentsToldExactly` and `ClientsToldExactly`).
- A colon in a tenant can make loans of two tenants, or a loan and a client, share a version counter (`TenantsCollide`). A counter
  is its owner's alone exactly when its key can be cut into a tenant and an id in one way (`LoanCounterIsItsOwn`, `ClientCounterIsItsOwn`);
  within one tenant, and among tenants without a colon, it always is (`CountersApart`).
- The batch normaliser emits `loan_ids` as a `[]string`, which the invalidation's `[]any` assertion does not
  match: a normalised batch invalidates no loan but one that the activity itself still names (`Batch.NormalisedBatchBumps`).
- A `|` inside a field can move to the neighbouring field without changing the key of the in-process cache or the additional
  data of a session. The ten session fields are determined exactly when none holds a `|` (`AadDeterminesExactly`, `PipesMove`). For the
  in-process key the same holds of client, agent, agent name and activity type (`FilterPipesExactly`, `PipesCollide`); for tenant, email and
  loan it does not, because the email is stored lower-case and trimmed and so not every bar can move: the exact condition is in `PlacePipesExactly`.
- The in-process activity cache invalidates under a blank tenant, the Redis one does not (`MemoryReadCache.InvalidateScopes`,
  `ReadCache.InvalidateScopes`).
- The identity cache can evict the entry it is storing (`SetEvictsItselfExactly`), whatever its TTL and its size above 0
  (`SetCanEvictItself`), and its `order` list is not bounded (`OrderGrows`).
- Clock readings that reach the rate limiter out of order can make it forget a grant that a later call should count
  (exactly when, in `KeptShowsGrantsExactly`), and then break its bound, for every window and every limit but 1
  (`LateReadingBreaksBound`, `BoundNeedsOrderExactly`).
- An authorization that is only the word "Bearer", with or without spaces, is not empty: it is hashed as a token of its own (`HashAccessTokenExactly`).
- The list of forbidden tenant digests excludes nothing that the minimum length does not (`TenantDigestExactly`).
- A kid with a `:`, CR or LF encrypts without an error and can never be decrypted (`TreeRoundTrip`).
- `has_next` can be true with nothing beyond the slice when the offset is not a multiple of the limit (`HasNextExactly`,
  `NothingBeyondYetHasNext`).

## Model

| member | source | states |
|---|---|---|
| Stream.HighWaterKeepsRecords | internal/infrastructure/notifications/sse.go:69-81 | the filter keeps exactly the strict left-to-right maxima above the start id, in order, and the mark ends at the last of them |
| Stream.StreamIsHighWater | internal/infrastructure/notifications/sse.go:83-186 | in every run, with or without Redis, the frames written are exactly the left-to-right maxima of what is handed over until the run ends: replay, catch-up, and the ids of each message and recovery |
| Stream.StreamSoFar | internal/infrastructure/notifications/sse.go:92-185 | after every number of turns a connected stream has written the records of all ids handed over, one connected comment right after the catch-up, one keep-alive at the end of each quiet turn and no request to retry; later turns only add to it; and it ends exactly at a cancellation (silently), at a failed recovery (with a request to retry) or with its arrivals |
| Stream.StreamUnconnected | internal/infrastructure/notifications/sse.go:83-117 | without a subscription, or when the catch-up fails, the client gets the records of the replay and a request to retry |
| Stream.TurnGoes | internal/infrastructure/notifications/sse.go:139-184 | a turn that is neither cancelled nor fails to recover writes the records it brings, and a keep-alive if it was quiet; a message that cannot be decoded writes nothing and ends nothing |
| Stream.CutStreamIsPrefix | internal/infrastructure/notifications/sse.go:69-81 | a client cut off by a write error has received a prefix of those ids |
| Stream.FrameIdReadsBack | internal/infrastructure/notifications/sse.go:23-33 | the id on every frame is read back as that id when the client sends it in `Last-Event-ID` |
| Stream.EventIdExactly | internal/infrastructure/notifications/sse.go:23-33 | an event has the id that `event_id` prints, or `EventID` when that is absent or nil: a 64-bit integer, a text `Atoi` reads, or a float64 below 1,000,000 |
| Stream.IdsOfMeans | internal/infrastructure/notifications/sse.go:69-81 | each event of a batch that has an id contributes it in its place |
| Stream.SSE.WriteFrames | internal/infrastructure/notifications/sse.go:69-81 | writes the records of a batch until the first refused write; the mark then names the frame that failed, otherwise the last record |
| Stream.SSE.Serve | internal/infrastructure/notifications/sse.go:83-186 | what is written, and how the run ends, for every replay, subscription outcome, catch-up answer, list of arrivals and write budget |
| Stream.SSE.ServeConnected | internal/infrastructure/notifications/sse.go:106-128 | catch-up, its failure frame, the connected comment, then the live loop |
| Stream.SSE.TakeTurn | internal/infrastructure/notifications/sse.go:139-184 | one turn of the live loop: cancellation, timeout with or without recovery, message, anything else |
| Stream.SSE.ServeLive | internal/infrastructure/notifications/sse.go:128-185 | the live loop over a whole list of arrivals |
| StreamDelivery.CoreEventId | internal/infrastructure/notifications/sse.go:23-33 | an id that Core sends as a JSON number is read back exactly when it is below 1,000,000 |
| StreamDelivery.InvStep | internal/infrastructure/notifications/sse.go:92-185 | every step of Core, publisher, channel or stream keeps the invariant, and a gap-free covered stream stays so |
| StreamDelivery.GaplessDelivery | internal/infrastructure/notifications/sse.go:92-185 | under every interleaving the emitted ids are exactly the logged ids in (start, last], once each and in order, unless the catch-up page was full |
| StreamDelivery.DrainedStreamIsComplete | internal/infrastructure/notifications/sse.go:92-185 | once every message has been received, every decodable event above the start was delivered and nothing else |
| StreamDelivery.LargeIdsNeverArrive | internal/infrastructure/notifications/sse.go:23-33 | on no schedule is an id of 1,000,000 or more delivered |
| StreamDelivery.SystemIsServe | internal/infrastructure/notifications/sse.go:83-186 | every run of the step system that reaches the live loop has emitted what `Serve` writes when handed that run's loaded page, Core's page at its catch-up, and its messages and recoveries in order |
| StreamDelivery.CoverageIsExact | internal/infrastructure/notifications/sse.go:106-118 | a gap-free live stream can come to lose an event if and only if a decodable event that no message will bring is above its mark and the next message, logged or not, can be a decodable one |
| StreamDelivery.CatchUpCovers | internal/interface/api/handler/notifications.go:126-150 | the catch-up request leaves the stream covered if and only if at most `limit` events are owed |
| StreamDelivery.CatchUpLosesExactly | internal/infrastructure/notifications/sse.go:106-118 | from every reachable state: after the catch-up an event can come to be lost if and only if more than `limit` events were owed and the next message can be a decodable one |
| StreamDelivery.TruncatedCatchUpCanLose | internal/interface/api/handler/notifications.go:126-150 | with limit 1 there is a run from the initial state that loses an event |
| Joining.JoinDeterminesExactly | internal/infrastructure/fieldcrypto/stateless_helpers.go:69-82 | a list of two parts or more is determined by its joined text if and only if no part holds the separator |
| VersionedCache.SameShapeDistinct | internal/infrastructure/activities/read_cache.go:76-92 | a request free of the separator shares no key with any other request of its shape, at any versions, once the body fixes what it abbreviates |
| VersionedCache.VersioningRefinesDeletion | internal/infrastructure/activities/read_cache_memory.go:26-66 | over every sequence of gets, sets and invalidations, counters in keys give the same answers as deleting every entry of an invalidated scope |
| ActivityCache.MemoryReadCache.Key | internal/infrastructure/activities/read_cache_memory.go:26-34 | the key is the versioned key of the request at the current counters |
| ActivityCache.MemoryReadCache.GetList | internal/infrastructure/activities/read_cache_memory.go:36-45 | answers what the versioned store holds, and only for cacheable requests |
| ActivityCache.MemoryReadCache.SetList | internal/infrastructure/activities/read_cache_memory.go:47-55 | stores under the current versions; a request that is not cacheable or a nil payload changes nothing |
| ActivityCache.MemoryReadCache.InvalidateScopes | internal/infrastructure/activities/read_cache_memory.go:57-66 | bumps the loan's and the client's counter, skipping a blank id but not a blank tenant |
| ActivityCache.MemoryCacheRefinesDeletion | internal/infrastructure/activities/read_cache_memory.go:26-66 | with requests free of the separator, every call sequence gives the answers of a plain map that holds first pages by tenant, normalised email, loan, bag of loan ids, client, agent, names, limit and offset, and deletes every list of an invalidated loan or client |
| ActivityCache.CacheableExactly | internal/infrastructure/activities/read_cache.go:94-104 | cacheable is a first page of a list that names a loan or a client by more than spaces |
| ActivityCache.NormalizeEmailExactly | internal/infrastructure/activities/read_cache.go:37-39 | emails count as one exactly when they agree up to case and outer space |
| ActivityCache.ScopeIsTenantAndId | internal/infrastructure/activities/read_cache_memory.go:57-66 | for separator-free tenants and ids, two scopes are one exactly when both agree after trimming |
| ActivityCache.FilterPipesExactly | internal/infrastructure/activities/read_cache_memory.go:26-34 | a request's key differs from those of all requests with other client, agent, agent name or activity type if and only if none of these holds the separator |
| ActivityCache.PlacePipesExactly | internal/infrastructure/activities/read_cache_memory.go:26-34 | the same for tenant, email and loan, if and only if their text has no other two separators with a normalised email between them |
| ActivityCache.PipesCollide | internal/infrastructure/activities/read_cache_memory.go:26-34 | two different requests with a separator inside a field share an entry |
| ActivityCache.FingerprintIsBag | internal/infrastructure/activities/read_cache.go:41-49 | lists of comma-free ids on which the hash does not collide have one fingerprint if and only if one is a permutation of the other |
| Sorting.SortSorts | internal/infrastructure/activities/read_cache.go:41-49 | sorting orders and permutes |
| Sorting.SortIgnoresOrder | internal/infrastructure/activities/read_cache.go:41-49 | permuted id lists sort alike |
| Sorting.LeIsFirstDifference | internal/infrastructure/activities/read_cache.go:41-49 | the order: a prefix first, otherwise the first difference decides |
| Text.TrimSpaceExactly | internal/infrastructure/activities/read_cache.go:37-39 | a trimmed text is what is left between two blank ends when neither of its own ends is a space |
| NotificationCache.MemoryReadCache.GetUnreadCount | internal/infrastructure/notifications/read_cache_memory.go:34-40 | answers what the versioned store of counts holds |
| NotificationCache.MemoryReadCache.SetUnreadCount | internal/infrastructure/notifications/read_cache_memory.go:42-47 | stores the count under the user's current version and touches no list |
| NotificationCache.MemoryReadCache.GetList | internal/infrastructure/notifications/read_cache_memory.go:49-58 | answers what the versioned store of pages holds |
| NotificationCache.MemoryReadCache.SetList | internal/infrastructure/notifications/read_cache_memory.go:60-65 | stores the page under the user's current version and touches no count |
| NotificationCache.MemoryReadCache.InvalidateUser | internal/infrastructure/notifications/read_cache_memory.go:67-71 | one bump makes the user's counts and pages unreachable |
| NotificationCache.MemoryCacheRefinesDeletion | internal/infrastructure/notifications/read_cache_memory.go:26-71 | every call sequence with fields free of the separator gives the answers of two plain maps, counts by user and pages by user, state, severity and limit, from which an invalidated user is deleted |
| RedisTimeline.HitHasWriter | internal/infrastructure/activities/read_cache.go:106-130 | a hit was written by an earlier command for the same request, all its normalised fields included, and the same versions, less than its TTL ago |
| RedisTimeline.HitIsFresh | internal/infrastructure/activities/read_cache.go:51-92 | no bump of a scope lies between the version read of the writer and that of the hit, unless a counter was due to expire before the entry |
| RedisTimeline.EarlierEntriesMiss | internal/infrastructure/activities/read_cache.go:133-153 | after a bump, whoever then reads the version is served only entries whose version was read after the bump |
| RedisTimeline.StaleOnlyByRace | internal/infrastructure/activities/read_cache.go:106-153 | a hit after a create's bump misses the create exactly when its writer loaded before the commit, and then that writer read the version after the bump |
| RedisTimeline.ExpiryIsExact | internal/infrastructure/activities/read_cache.go:121-153 | for an entry of at most 24 hours, with any number of scopes and anything between its version reads and its write: a client that begins later can be served it after a bump of a scope if and only if that counter has fallen below the version in the key or is due to expire before the entry, and no other counter is above its version unless it is due too |
| RedisTimeline.StaleNeedsReturn | internal/infrastructure/activities/read_cache.go:121-153 | that counter must be so for any client, whenever it began |
| RedisKeys.SafeKeysTell | internal/infrastructure/activities/read_cache.go:76-92 | equal Redis keys of colon-free queries, with bar-free agent names and comma-free ids, mean the same cache, the same normalised fields each by itself, permuted ids and the same versions |
| RedisKeys.SafeQueriesDistinct | internal/infrastructure/notifications/read_cache.go:16-18 | such queries never share a key, within or across the three caches |
| RedisKeys.RequestTellsQuery | internal/infrastructure/activities/read_cache.go:76-92 | what stands behind an entry is the whole normalised query, not only what the key shows |
| RedisKeys.MergedTextsExactly | internal/infrastructure/activities/read_cache.go:88 | two lists that agree otherwise share a key if and only if agent name and activity type make the same merged text |
| RedisKeys.NamesToldExactly | internal/infrastructure/activities/read_cache.go:88 | a list is told apart from all that differ in these two fields if and only if the merged text has no other bar between trimmed texts |
| RedisKeys.MergedNamesCollide | internal/infrastructure/activities/read_cache.go:88 | in any list, two pairs of names that differ only in which of them holds the bar make the same key |
| RedisKeys.AgentsToldExactly | internal/infrastructure/activities/read_cache.go:76-92 | a list is told apart from all that differ in agent and agent name if and only if the text of the two has no other colon between trimmed texts |
| RedisKeys.ClientsToldExactly | internal/infrastructure/activities/read_cache.go:76-92 | the same for client and agent, at equal versions |
| RedisKeys.AgentNamesCollide | internal/infrastructure/activities/read_cache.go:76-92 | in any list, two pairs of agent and agent name that differ only in which of them holds the colon make the same key |
| RedisKeys.LoanCounterIsItsOwn | internal/infrastructure/activities/read_cache.go:17-18 | a loan's counter is shared with no other loan of any tenant if and only if its key has no other `:loan:` between a trimmed tenant and a non-blank trimmed id, and with no client if and only if it has no such `:client:` |
| RedisKeys.ClientCounterIsItsOwn | internal/infrastructure/activities/read_cache.go:17-18 | the same for a client's counter |
| RedisKeys.UserCounterIsItsOwn | internal/infrastructure/notifications/read_cache.go:44-54 | a notification user's counter is shared with no other user of any tenant if and only if its key can be cut into a trimmed tenant and a normalised email in one way |
| RedisKeys.CountersApart | internal/infrastructure/activities/read_cache.go:62-74 | counters coincide only for one tenant, kind and id: within a tenant for all ids, and across colon-free tenants |
| RedisKeys.TenantsCollide | internal/infrastructure/activities/read_cache.go:62-74 | two tenants, one with a colon, whose loans share a counter, and a loan and a client that do |
| RedisHits.QueriesAreDistinct | internal/infrastructure/activities/read_cache.go:76-92 | in a history whose reads and writes come from key-safe queries no two requests share a key |
| RedisHits.HitsAreRecentAndFresh | internal/infrastructure/activities/read_cache.go:51-130 | in such a history every hit was stored for the same normalised query within its cache's TTL (25 seconds for lists), with no bump of any scope between the two version reads unless a counter was due to expire before the entry |
| ActivityUsecase.ScopeIDsFromPayload | internal/infrastructure/activities/read_cache.go:156-183 | the loan is the trimmed text of the first of `loan_id`, `loanId` that holds a text that is not blank, else the first such text of a `[]any` `loan_ids`; the client likewise of `client_id`, `clientId` |
| ActivityUsecase.PayloadScopesAre | internal/infrastructure/activities/read_cache.go:156-183 | that, by `Lookup` alone, and exactly when they are blank |
| ActivityUsecase.ReadCache.Versions | internal/infrastructure/activities/read_cache.go:51-74 | reads the loan's version, then the client's |
| ActivityUsecase.ReadCache.GetList | internal/infrastructure/activities/read_cache.go:106-119 | issues two version reads and a fetch, or nothing when the request is not cacheable |
| ActivityUsecase.ReadCache.SetList | internal/infrastructure/activities/read_cache.go:121-130 | reads both versions again and writes with a 25-second TTL; a nil payload or a request that is not cacheable does nothing |
| ActivityUsecase.ReadCache.InvalidateScopes | internal/infrastructure/activities/read_cache.go:133-153 | increments and re-expires each non-blank scope's counter, and nothing under a blank tenant |
| ActivityUsecase.ActivitiesUsecase.ListActivities | internal/application/usecases/activities.go:35-49 | one cache-aside read (`ReadRun`) of that request, allowed to use the cache when it is cacheable, with a 25-second TTL |
| RedisClient.ReadAnswers | internal/application/usecases/activities.go:35-49 | a read asks the cache first, under versions it has just read; a hit is answered with the entry's items and nothing more is done; an error is answered exactly without a hit when Core fails, null exactly when Core answers null; otherwise the answer is Core's list at the load, and that list is stored under versions read after the load, with the TTL |
| RedisClient.HitIsEarlierList | internal/infrastructure/activities/read_cache.go:106-119 | what a hit is answered with was loaded from Core and stored by an earlier read of the same request, less than its TTL ago |
| RedisClient.ReadTwice | internal/application/usecases/activities.go:35-49 | an undisturbed second read within the TTL returns what the first one returned |
| ActivityUsecase.ActivitiesUsecase.CreateActivity | internal/application/usecases/activities.go:52-59 | commits, then bumps what the payload names; a failed create bumps nothing |
| ActivityUsecase.ActivitiesUsecase.CreateActivityBatch | internal/application/usecases/activities.go:62-79 | commits, then bumps for the payload, the nested activity and each string of a `[]any` list |
| ActivityUsecase.CreateBumpsExactlyNamed | internal/application/usecases/activities.go:52-59 | a create bumps a loan's or a client's counter if and only if it succeeds, its tenant is not blank and its payload names it |
| ActivityUsecase.CreateCommitsThenBumps | internal/infrastructure/activities/read_cache.go:133-153 | a refused create touches nothing; otherwise the commit comes first, then bumps only, each counter given a new 24 hours right after its increment |
| ActivityUsecase.BatchCommitsThenBumps | internal/application/usecases/activities.go:62-79 | the same for a batch |
| ActivityUsecase.BatchBumpsExactlyNamedLoans | internal/application/usecases/activities.go:62-84 | a batch bumps a loan's counter if and only if it succeeds under a tenant and the payload, its `activity` or its `[]any` `loan_ids` names the loan |
| ActivityUsecase.BatchBumpsExactlyNamedClients | internal/application/usecases/activities.go:62-84 | a batch bumps a client's counter if and only if it succeeds under a tenant and the payload or its `activity` names the client |
| ActivityUsecase.AnyListBumpsEveryLoan | internal/application/usecases/activities.go:71-77 | every non-blank string of a `[]any` `loan_ids` is bumped |
| ActivityUsecase.StringListBumpsNoLoan | internal/application/usecases/activities.go:71-77 | with a `[]string` `loan_ids` a loan is bumped if and only if `loan_id`, `loanId` or the activity names it |
| ActivityUsecase.BatchMakesListsMiss | internal/application/usecases/activities.go:62-79 | after a batch that names a list's loan or its client, interleaved with anyone's commands, no such list is served whose writer read that version before its bump, unless the counter was due to expire; a list that misses the batch was loaded before its commit |
| ActivityUsecase.CreateMakesListsMiss | internal/application/usecases/activities.go:52-59 | the same after a create |
| ActivityUsecase.RaceServesStale | internal/application/usecases/activities.go:35-59 | from every history, a load, a create that bumps the list's loan, and then the version reads and the write leave an entry without the create, and the next reader is served it |
| ActivityUsecase.ListExpiryIsExact | internal/infrastructure/activities/read_cache.go:121-153 | a list stored amid anyone's commands can be served, to a client that begins later, after a bump of its loan or client if and only if that counter has fallen below the version in the key or is due to expire within 25 seconds, and the other counter is not above its version or is due as well |
| ActivityUsecase.UndisturbedExpiryIsExact | internal/infrastructure/activities/read_cache.go:121-153 | when nothing comes between its version reads and its write, if and only if that counter is due to expire within 25 seconds |
| NotificationUsecase.NotificationsUsecase.ListNotifications | internal/application/usecases/notifications.go:38-52 | one cache-aside read of that page (`RedisClient.ReadAnswers`), allowed to use the cache for a cacheable page of a known user, with a 30-second TTL |
| NotificationUsecase.CacheableListPageExactly | internal/infrastructure/notifications/read_cache.go:159-173 | cacheable is a page without cursor and dates whose state is blank, all, unread or read |
| NotificationUsecase.KnownExactly | internal/infrastructure/notifications/read_cache.go:58-66 | a user is known by a tenant and an email that are more than spaces |
| NotificationUsecase.NotificationsUsecase.UnreadCount | internal/application/usecases/notifications.go:61-75 | the commands of a count read; a miss hands on Core's answer, a hit the count alone |
| NotificationUsecase.CachedCountIsCores | internal/application/usecases/notifications.go:115-131 | the count read back from the cache is the count in Core's answer |
| NotificationUsecase.UnreadCountMeans | internal/application/usecases/notifications.go:115-131 | the count is the number in `count`, a float cut toward zero, and 0 for a missing answer |
| NotificationUsecase.MarkCommitsThenBumps | internal/infrastructure/notifications/read_cache.go:143-157 | a refused mark touches nothing; otherwise it commits, and bumps and renews the counter exactly of a known user |
| NotificationUsecase.NotificationsUsecase.Mark | internal/application/usecases/notifications.go:93-113 | a successful mark commits and bumps the user's counter |
| NotificationUsecase.MarkedUserIsStaleOnlyByRace | internal/infrastructure/notifications/read_cache.go:44-157 | under any interleaving, a user's count or page that misses a mark was loaded before it and stored under a version read after its bump, unless a counter was due to expire |
| RateLimit.Compact | internal/interface/api/middleware/rate_limit_store.go:37-43 | compacting in place through `[:0]` leaves exactly the recent times, in order |
| RateLimit.MemoryRateLimitStore.Allow | internal/interface/api/middleware/rate_limit_store.go:33-50 | grants when fewer than `limit` kept times are recent, keeps those plus the grant, and changes no other key |
| RateLimit.KeptShowsGrantsExactly | internal/interface/api/middleware/rate_limit_store.go:33-50 | what is kept shows exactly the grants of the window at a time if and only if no earlier call dropped a grant that is inside it; otherwise it shows fewer |
| RateLimit.AllowCountsGrants | internal/interface/api/middleware/rate_limit_store.go:33-50 | for readings in any order a call with fewer than `limit` grants of its key in the last window is granted, and, unless a grant was lost, no other is |
| RateLimit.LosslessWindowBound | internal/interface/api/middleware/rate_limit_store.go:33-50 | in a run that loses nothing no half-open interval of one window's length holds more than `limit` grants of a key |
| RateLimit.OrderlyIsLossless | internal/interface/api/middleware/rate_limit_store.go:33-50 | an orderly clock loses nothing |
| RateLimit.WithinWindowIsLossless | internal/interface/api/middleware/rate_limit_store.go:33-50 | nor do disorderly readings that lie within one window |
| RateLimit.WindowBound | internal/interface/api/middleware/rate_limit_store.go:33-50 | the bound for an orderly clock |
| RateLimit.LateReadingBreaksBound | internal/interface/api/middleware/rate_limit_store.go:33-50 | for every window and every limit above 1, a run with one late reading that puts one grant more than `limit` into an interval |
| RateLimit.BoundNeedsOrderExactly | internal/interface/api/middleware/rate_limit_store.go:33-50 | the bound holds for readings in any order if and only if the limit is 1 |
| IdentityCache.EvictsFirstLive | internal/infrastructure/auth/identity_email_cache.go:77-82 | the eviction loop ends within the bound, passes over stale subjects and removes exactly the first live one |
| IdentityCache.StoredFacts | internal/infrastructure/auth/identity_email_cache.go:68-83 | storing keeps the bound and keeps every stored subject in `order`; when the new subject itself is lost |
| IdentityCache.InMemoryTtlIdentityEmailCache.Get | internal/infrastructure/auth/identity_email_cache.go:50-66 | answers an unexpired email and drops an expired one from the map only |
| IdentityCache.InMemoryTtlIdentityEmailCache.Set | internal/infrastructure/auth/identity_email_cache.go:68-83 | map and order after a store, with its evictions |
| IdentityCache.InMemoryTtlIdentityEmailCache.IsNegative | internal/infrastructure/auth/identity_email_cache.go:85-101 | true exactly while a negative entry lives |
| IdentityCache.InMemoryTtlIdentityEmailCache.SetNegative | internal/infrastructure/auth/identity_email_cache.go:103-118 | the negative map and its order after a store; nothing when negative caching is off |
| IdentityCache.RunInvariant | internal/infrastructure/auth/identity_email_cache.go:50-83 | after every sequence of operations the bound holds, every stored subject occurs in `order` and holds what was last set |
| IdentityCache.GetIsLastSet | internal/infrastructure/auth/identity_email_cache.go:50-66 | after every run a stored subject is answered with the last email set for it until its TTL is over and then with nothing, and one that is not stored with nothing |
| IdentityCache.EntryLeavesExactly | internal/infrastructure/auth/identity_email_cache.go:50-83 | a stored subject leaves the cache if and only if it is asked for when expired, or a new one is stored in a full cache in which it is the oldest insertion alive |
| IdentityCache.StoredOrderExactly | internal/infrastructure/auth/identity_email_cache.go:68-83 | a refresh leaves `order` alone; a new subject is added at its back, and in a full cache everything up to the first live subject is taken off its front |
| IdentityCache.SetEvictsItselfExactly | internal/infrastructure/auth/identity_email_cache.go:68-83 | `Set` loses its own entry if and only if the cache is full, the subject is new and the first live subject of `order` is a stale mention of it |
| IdentityCache.SetCanEvictItself | internal/infrastructure/auth/identity_email_cache.go:50-83 | for every TTL and every size above 0, a run from the empty cache at whose end `Set` leaves its own subject out |
| IdentityCache.OrderGrows | internal/infrastructure/auth/identity_email_cache.go:50-83 | n expiries of one subject leave `order` n long while the map is empty |
| IdentityCache.ResolveEmailBySub | internal/infrastructure/auth/cognito_jwt.go:187-214 | what is answered and what is remembered for a hit, a denial, a transient failure, an unknown user and a found email, each cache call with its own clock reading; transient failures are never remembered |
| Base64Url.DecodeEncode | internal/infrastructure/fieldcrypto/envelope.go:22-35 | decoding inverts encoding on every byte string |
| Base64Url.QuadIsBigEndian | internal/infrastructure/fieldcrypto/envelope.go:22-24 | three bytes and their four symbols are the same 24-bit number, most significant first |
| Base64Url.EncodeThree | internal/infrastructure/fieldcrypto/envelope.go:22-24 | a text is made of such groups |
| Base64Url.EncodeOne | internal/infrastructure/fieldcrypto/envelope.go:22-24 | one byte left over is filled with zeros whose symbols are left out |
| Base64Url.EncodeTwo | internal/infrastructure/fieldcrypto/envelope.go:22-24 | two bytes likewise |
| Base64Url.SymbolsAreListed | internal/infrastructure/fieldcrypto/envelope.go:22-24 | the alphabet in its order |
| Base64Url.ReencodeExactly | internal/infrastructure/fieldcrypto/stateless_helpers.go:100-102 | a text of symbols is the encoding of what it decodes to if and only if its left-over bits are zero |
| Base64Url.CanonicalIsExact | internal/infrastructure/fieldcrypto/stateless_helpers.go:84-104 | accepted are exactly the encodings of non-empty byte strings, each with its bytes |
| Base64Url.CanonicalIsUnique | internal/infrastructure/fieldcrypto/stateless_helpers.go:84-104 | two accepted texts with equal bytes are equal |
| Base64Url.RawAcceptsMore | internal/infrastructure/fieldcrypto/envelope.go:26-35 | the plain decoder accepts a non-encoding exactly when it holds a line break or left-over bits |
| Base64Url.RawIgnoresBreaks | internal/infrastructure/fieldcrypto/envelope.go:26-35 | a line break anywhere makes no difference to the plain decoder |
| Base64Url.RawDecodesExactly | internal/infrastructure/fieldcrypto/envelope.go:26-35 | besides breaks it accepts exactly symbols in a number that is not one more than a multiple of four |
| Base64Url.PaddingIsHarmless | internal/interface/api/handler/notification_cursor.go:80-88 | padding a text to a multiple of four makes the padded decoder read it as the raw one does |
| Envelopes.EnvelopeRoundTrip | internal/infrastructure/fieldcrypto/envelope.go:38-96 | parsing inverts printing if and only if the kid is clean, nonce and tag have their lengths and the ciphertext is not empty |
| Envelopes.DirtyKidRejected | internal/infrastructure/fieldcrypto/envelope.go:56-96 | an envelope whose kid is empty or holds `:`, CR or LF prints as a text that never parses |
| Envelopes.PrintedIsEnvelope | internal/infrastructure/fieldcrypto/envelope.go:50-53 | every printed envelope is recognised by its prefix |
| Envelopes.LayoutExactly | internal/infrastructure/fieldcrypto/envelope.go:38-48 | the six fields in their order |
| Envelopes.ParsesExactly | internal/infrastructure/fieldcrypto/envelope.go:56-96 | accepted are exactly the texts of six such fields, each segment decoding to its part, of the right lengths |
| Envelopes.ParseErrorsExactly | internal/infrastructure/fieldcrypto/envelope.go:56-96 | a text of six fields that begins with `enc` but not `enc:v1` is of an unsupported version, everything else refused is invalid |
| Envelopes.ParsedIsPrintedExactly | internal/infrastructure/fieldcrypto/envelope.go:56-96 | an accepted text is the printed form of its envelope if and only if no segment has left-over bits |
| FieldCrypto.ValueRoundTrip | internal/infrastructure/fieldcrypto/valuecodec.go:20-81 | every scalar decodes to itself, Go integers to their float64 |
| FieldCrypto.DecodeExactly | internal/infrastructure/fieldcrypto/valuecodec.go:43-81 | decoded is exactly a scalar under its own tag |
| FieldCrypto.EncodeExactly | internal/infrastructure/fieldcrypto/valuecodec.go:20-40 | encoded is every scalar under the tag of its kind and nothing else |
| FieldCrypto.AadExactly | internal/infrastructure/fieldcrypto/service.go:13-15 | the additional data is `enc:v1:` and the kid, and so different for different kids |
| FieldCrypto.LeafCarries | internal/infrastructure/fieldcrypto/service.go:57-73 | a sealed leaf is the envelope of its kid, its nonce and the tagged scalar sealed under them |
| FieldCrypto.OtherRingFails | internal/infrastructure/fieldcrypto/service.go:75-119 | a sealed leaf is an unknown kid to a ring without its kid and an invalid tag to one with another or an unusable key; a leaf in plain text is rejected |
| FieldCrypto.LeafRoundTrip | internal/infrastructure/fieldcrypto/service.go:57-119 | one sealed scalar opens if the kid is clean and is rejected otherwise |
| FieldCrypto.CountLeaves | internal/infrastructure/fieldcrypto/service.go:18-35 | the loop counts the scalars of the tree |
| FieldCrypto.FieldCryptoService.EncryptTree | internal/infrastructure/fieldcrypto/service.go:122-136 | kid choice, key lookup and key check, then the tree; the random source advances by what was drawn |
| FieldCrypto.FieldCryptoService.EncryptInto | internal/infrastructure/fieldcrypto/service.go:138-167 | the recursive loops seal the tree, stopping at the first error |
| FieldCrypto.FieldCryptoService.DecryptTree | internal/infrastructure/fieldcrypto/service.go:170-198 | the recursive loops open the tree, stopping at the first error |
| FieldCrypto.EncryptionShape | internal/infrastructure/fieldcrypto/service.go:122-167 | encryption succeeds if and only if key and leaves allow it, and yields the same shape with exactly `CountScalars` envelopes, one nonce draw each |
| FieldCrypto.EncryptionIsLeafwise | internal/infrastructure/fieldcrypto/service.go:122-167 | an unknown kid or unusable key is refused before anything is drawn; otherwise the leaves are encrypted from left to right, each under the next draw, up to the first that fails, which gives the error |
| FieldCrypto.LeavesCarryDraws | internal/infrastructure/fieldcrypto/service.go:138-167 | the i-th leaf of a ciphertext carries the i-th leaf of the payload under the i-th nonce drawn |
| FieldCrypto.TreeRoundTrip | internal/infrastructure/fieldcrypto/service.go:122-198 | decryption with any ring that holds the same key gives the tree back exactly when the kid is clean, and fails otherwise |
| FieldCrypto.JsonRoundTrip | internal/infrastructure/fieldcrypto/service.go:122-198 | every tree read from JSON comes back unchanged |
| FieldCrypto.DecryptionIsLeafwise | internal/infrastructure/fieldcrypto/service.go:170-198 | a tree decrypts if and only if every leaf at every depth does, with the same shape and the leaves in place; otherwise the first leaf that fails gives the error |
| Sessions.NewKekRing | internal/infrastructure/fieldcrypto/kek_ring.go:25-40 | accepts exactly the rings whose active kid is known and whose keys are 32 bytes, and copies them whole |
| Sessions.NewManagerIsValid | internal/infrastructure/fieldcrypto/stateless.go:34-52 | a TTL of 1 to 300 seconds is kept, any other becomes 300; a blank namespace is replaced; the rest is taken over |
| Sessions.IssuedExactly | internal/infrastructure/fieldcrypto/stateless.go:61-142 | a session is issued if and only if the digest has 16 characters, the token hash is 64 hexadecimal digits and the client's key is canonical and usable; to that subject, scope, tenant and token, for the manager's TTL, with the key derived from what is shared |
| Sessions.TenantDigestExactly | internal/infrastructure/fieldcrypto/stateless_helpers.go:119-125 | accepted is every digest of 16 characters or more after trimming: the list of forbidden words excludes nothing further |
| Sessions.HashAccessTokenExactly | internal/infrastructure/fieldcrypto/stateless_helpers.go:106-117 | a text that is not blank presents exactly one token, what follows "bearer " in any case or else itself, without outer spaces, and its hash is given; an error comes exactly for a blank one |
| Sessions.ClientAgrees | internal/infrastructure/fieldcrypto/stateless.go:61-142 | the key sealed into the token is the key a client derives from the answer, and the answer names the issued session and its lifetime |
| Sessions.TokenResolvesExactly | internal/infrastructure/fieldcrypto/stateless.go:61-255 | a token of one manager resolves at another with the same secret and issuer, to the key sealed, if and only if the ring still knows the kid, session, namespace and tenant are those of the handshake, the token presented has the hash it was issued to, and expiry plus 5 seconds has not come |
| Sessions.ResolveDemands | internal/infrastructure/fieldcrypto/stateless.go:165-255 | what holds of every token that resolves, whoever made it: signature, audience, issuer, times, session, namespace, tenant and the hash of the token presented |
| Sessions.AadDetermines | internal/infrastructure/fieldcrypto/stateless_helpers.go:69-82 | ten fields free of the separator are the only ones with their additional data |
| Sessions.AadDeterminesExactly | internal/infrastructure/fieldcrypto/stateless_helpers.go:69-82 | ten fields are the only ones with their additional data if and only if none of them holds the separator |
| Sessions.PipesMove | internal/infrastructure/fieldcrypto/stateless_helpers.go:69-82 | a separator can move between subject and scope without changing the additional data |
| Sessions.SignatureBinds | internal/infrastructure/fieldcrypto/stateless.go:165-255 | with an ideal signature a resolved token has the ten fields of one issued session, less than 305 seconds after issue, and under its sealing key yields the sealed key |
| Sessions.CipherBinds | internal/infrastructure/fieldcrypto/stateless.go:165-255 | with an ideal cipher and separator-free fields presented the same holds, with exactly the sealed key, even if signatures can be forged |
| Sessions.BoundToItsToken | internal/infrastructure/fieldcrypto/stateless.go:165-255 | a token that resolves with the fields of a session was presented together with the very bearer token the session was issued to, unless the hash collides |
| Sessions.BearerBinds | internal/interface/api/handler/crypto_session.go:57-80 | so with an ideal signature, or an ideal cipher and separator-free fields, whoever resolves a session presents its bearer token |
| RoutePolicy.TokenMeans | internal/infrastructure/fieldcrypto/policy.go:23 | a token is an opening brace, characters other than slash and closing brace, and a closing brace |
| RoutePolicy.FindsLeftmost | internal/infrastructure/fieldcrypto/policy.go:23-31 | the token found is the leftmost one |
| RoutePolicy.CompilePathPattern | internal/infrastructure/fieldcrypto/policy.go:22-39 | the loop that shrinks what remains compiles the template |
| RoutePolicy.MatchIsSegmentwise | internal/infrastructure/fieldcrypto/policy.go:18-39 | for every template, a path matches if and only if it has as many segments and each segment matches its own pattern |
| RoutePolicy.CompilationPreservesMeaning | internal/infrastructure/fieldcrypto/policy.go:18-39 | when tokens fill whole segments: literal segments equal, token segments not empty, same number of both |
| RoutePolicy.FromEntries | internal/infrastructure/fieldcrypto/policy.go:52-68 | one rule per entry, in order, with the entry's path and its two flags, the method in upper case and the compiled path |
| RoutePolicy.Resolve | internal/infrastructure/fieldcrypto/policy.go:71-78 | the scan returns the first rule that accepts, and none only if none does |
| RoutePolicy.AppendingKeepsAnswers | internal/infrastructure/fieldcrypto/policy.go:71-78 | appended rules answer only what was unanswered |
| RoutePolicy.TableMeaning | internal/infrastructure/fieldcrypto/policy.go:52-78 | a table resolves to a rule with path, decrypt flag and encrypt flag of its first entry with the same method up to case and matching segments, and to nothing if there is none |
| Cursor.HexEncode | internal/interface/api/handler/notification_cursor.go:90-98 | the buffer holds the hexadecimal text |
| Cursor.HexIsPositional | internal/interface/api/handler/notification_cursor.go:90-98 | each byte is the two listed digits of its upper and its lower half |
| Cursor.HexInjective | internal/interface/api/handler/notification_cursor.go:90-98 | different bytes have different texts |
| Cursor.B64RoundTrip | internal/interface/api/handler/notification_cursor.go:76-88 | stripping the padding and putting it back by length is lossless for every length |
| Cursor.CursorRoundTrip | internal/interface/api/handler/notification_cursor.go:18-68 | a codec with another secret reads the position back if and only if it is not empty, the filters have the same scope and the two secrets configured, an empty one replaced by the default, sign it alike |
| Cursor.SameRecipient | internal/interface/api/handler/notification_cursor.go:70-74 | recipients equal up to case and surrounding space have the same scope |
| Cursor.ScopeDetermines | internal/interface/api/handler/notification_cursor.go:70-74 | without NULs and hash collisions no other filters do |
| Cursor.AcceptedWasMade | internal/interface/api/handler/notification_cursor.go:37-68 | with an ideal signature an accepted cursor yields the position of one that was given out for the same scope |
| Batch.CoerceStringSlice | internal/interface/api/handler/activity_batch.go:84-101 | `[]string` and all-string `[]any` are lists of texts, nothing else is |
| Batch.CoerceExactly | internal/interface/api/handler/activity_batch.go:84-101 | that in terms of the value alone |
| Batch.TrimUnique | internal/interface/api/handler/activity_batch.go:31-43 | succeeds with the trimmed ids exactly when they are distinct and none is blank |
| Batch.NormalizeActivityBatchPayload | internal/interface/api/handler/activity_batch.go:19-82 | the loops compute the specified outcome, with the errors in the code's order |
| Batch.ErrorIsFirstWrong | internal/interface/api/handler/activity_batch.go:19-82 | nine things can be wrong with a payload, each stated by itself; it is refused if and only if one is, with the error of the first in the code's order |
| Batch.NormaliseMeaning | internal/interface/api/handler/activity_batch.go:19-82 | exactly which payloads are accepted; the ids come out strictly increasing and as a permutation, the activity without `loan_id` and otherwise as it was |
| Batch.OrderDoesNotMatter | internal/interface/api/handler/activity_batch.go:27-47 | permuted ids, as either kind of list, have the same outcome, so permuted batches hash alike |
| Batch.NormaliseIsIdempotent | internal/interface/api/handler/activity_batch.go:19-82 | normalising a normalised payload changes nothing |
| Batch.NormalisedBatchBumps | internal/interface/api/handler/activity_batch.go:78-81 | a normalised batch bumps a loan's counter if and only if the activity itself still names it |
| Page.PagesResolve | internal/interface/api/handler/activities.go:216-225 | page and size asked for are kept when they are in range and replaced by 1 and 20 otherwise; the slice starts where the page does, as long as the product fits 64 bits and no longer |
| Page.OffsetsResolve | internal/interface/api/handler/activities.go:226-232 | limit and offset are kept when they are in range; the offset lies on the page reported |
| Page.EnvelopeExactly | internal/interface/api/handler/activities.go:234-266 | the envelope hands on Core's items, or an empty list, and its total, the page asked for, and as many pages as it takes to hold the total |
| Page.HasNextExactly | internal/interface/api/handler/activities.go:234-266 | `has_next` whenever items lie beyond the slice; exactly when it is true without any; exactly when `has_previous` is |
| Page.NothingBeyondYetHasNext | internal/interface/api/handler/activities.go:216-266 | offset 5, limit 10, total 12 |
| Page.WalkVisitsEachOnce | internal/interface/api/handler/activities.go:216-266 | following `has_next` from page 1 shows every index below the total once, in order, and stops |

## Left out

- Strings are sequences of characters, not UTF-8 bytes; case folding is ASCII only, and invalid UTF-8, NaN and infinities do not occur.
- Cryptographic primitives, JWT encoding, JSON text and hashes are functions with stated laws; nothing about their inside is proved.
- JWT audiences that are lists, sub-second clock readings and `VerifyAccessToken`; numbers in tokens are exact integers.
- Redis failures: a version read that fails becomes "0" in the code, so commands succeed in the model.
- Wrap-around of a version counter beyond 64 bits.
- Requests count as the same question to Core when they agree after trimming, email folding and reordering of loan ids; that is how the keys treat them.
- The exact conditions for keys vary one group of neighbouring fields at a time; how a separator could move across several groups, or across the fingerprint, is covered by the sufficient conditions only.
- IdentityCache.ResolveEmailBySub: no other call on the cache runs between its steps; every single cache call is specified from an arbitrary state.
- Cached Redis payloads are the ids of the committed changes a list reflects; each entry also carries the position of its writer, which the code does not store but the theorems speak about.
- Aliasing of cached maps between callers: payloads are immutable values.
- The order in which a Go map is iterated is the order in which the model lists it, one order per map.
- The stream's lifetime clock is the end of its list of arrivals; flushing has no effect. The publisher and Core's log are not code of this repository; they are steps of the model.
- Locks: each call of an in-process cache or of the rate limiter is one atomic step, together with its clock reading.
- The model of `int(float64)` does not cover totals outside 64 bits, and the page walk assumes a total at least 500 below the largest 64-bit number.
- Session handshakes always get their random bytes; the process environment is not read, so `KekRingFromEnv` and the weak-key checks are not part of this model.
- HTTP clients, handlers, routing, logging, roles, CSRF, audit, OIDC login, escalations and error texts: transport or lookups that would add only easy members.
