# Verified model of the AutoDS MCP server's stateful core

The server forwards MCP tool calls to the AutoDS upstreams. This project models the parts of it that
keep state or walk trees, and proves what they promise over every input, every run and every
interleaving. Time and token counts are reals; a concurrent component is a state machine whose steps
are the stretches of code between two `await` points, so a run is any interleaving of such steps.

| file | what it models |
|---|---|
| `Wrappers.dfy` | what the other modules share: the optional value, the positions a loop keeps, and the non-empty ones of a list of texts |
| `RateLimit.dfy`, `DeniedCalls.dfy` | the two token buckets of a user, as a compressed sliding-window log; when denied calls leave a trace |
| `PayloadPaths.dfy`, `DocumentOrder.dfy` | dotted paths with wildcards over a JSON payload, a store of cells that refer to each other |
| `Omit.dfy` | deleting named fields in place, through the references the resolver found |
| `Jwks.dfy` | the signing-key cache with its lock, throttle and forced refresh |
| `Identity.dfy` | the per-worker LRU and the shared expiring store in front of the identity lookup |
| `ImageDownload.dfy`, `ImageFetch.dfy` | one download with its redirect walk and byte ceiling; the nested gates, the deadline and the batch |
| `Playbooks.dfy`, `HintSizes.dfy`, `PlaybookHints.dfy` | the step index, the reachability lint, the sizes of the success hints, and the clauses of the failure tail |
| `Dispatch.dfy` | path templating, percent-encoding, query, headers and body of the upstream request |
| `ToolCall.dfy` | the exits of the tool-call handler, and the limiter's bound on what reaches the upstream |

Objects that the server updates are classes here, with the same fields; each method is proved equal to
a step function, and the theorems are about runs of those steps. Ghost fields keep the histories
(calls, fetches, upstream answers, audit lines) that the theorems speak about.

## Findings

Six places where the code does not do all that its comments or a reader may expect. Each has a lemma
with an input that shows it, and beside it the exact condition under which the promise holds.

- Denied calls leave no trace, whatever the buckets are, exactly if the clock never steps forward after
  having stepped back: a denied call moves the bucket's timestamp back, and time that passes again refills
  again (`DeniedCalls.DenialsLeaveNoTraceExactlyIf`, `DeniedCalls.DeniedLeaveATraceWhenTheClockStepsBack`).
- The omitted data does not depend on the order of the `omit` entries, but the `omitted` report and the
  credential alarm do: a credential in an object that an earlier entry removes is reported as unmatched
  although it is gone (`Omit.AlarmDependsOnOrder`). The alarm for a credential ignores the order exactly
  if nothing of the answer is left, the credential is not in it, or the other entries together do not
  remove all of it (`Omit.AlarmIgnoresOrderExactlyIf`).
- An identity, or the answer that there is none, may be served for almost two times to live, not one,
  because an entry read from the shared store late in its life starts a full new life in the worker's
  cache (`Identity.TwoTtlIsApproached`). One time to live bounds every run exactly without a shared store,
  or, not counting the round trips to it, with workers that cache nothing
  (`Identity.OneTtlBoundsExactlyIf`).
- The comment that the description tail's cap always overruns before the merged hint's cap is true of names
  that need no JSON escaping and false in general: two chains whose names hold 22 quotes each pass the
  graph and size lints, with a tail of 120 and a merged hint of 201
  (`HintSizes.QuotedNamesOverrunTheHint`). The hint fits exactly if the escaped names of the pending chains,
  three characters added to each, take up at most 103 (`HintSizes.MergedHintFits`); the check can be left out exactly as long as escaping adds at most 43
  characters to them (`HintSizes.CheckIsDispensableUpTo43`).
- The comment that 12 * max_bytes is the worst case for raw bytes holds for the body bytes received, each
  counted once (`ImageFetch.GatedBytesAreBounded`). In memory there can be twice as many, because the list
  of chunks lives on beside the joined body while it waits for the decoding pool: twelve images that each
  fill the ceiling in two chunks hold 24 * max_bytes (`ImageFetch.ResidentBytesAreReached`), and a bound
  holds between any two steps exactly from there on (`ImageFetch.ResidentBoundExactlyIf`). While a chunk is compared with the ceiling
  it is in memory too, so then the bound is 23 * max_bytes and that chunk (`ImageFetch.PeakIsBounded`).
- The comment that an encoded argument stays a single path component does not extend to dot segments, which
  percent-encoding leaves alone: removing them (section 5.2.4 of RFC 3986) turns /products/.. into /
  (`Dispatch.DotArgumentTakesItsParentAway`), and leaves a built path as it is exactly if no literal segment
  and no argument is "." or ".." (`Dispatch.DotRemovalKeepsPathExactlyIf`).

## Model

| member | source | states |
|---|---|---|
| RateLimit.EvaluateBuckets | src/autods_mcp_server/ratelimit.py:66-95 | allowed iff every bucket, refilled to now, holds the cost; the debit is taken from all buckets or none; retry_after is the longest wait of the deficient ones; of several specs with one name the last counts |
| RateLimit.RefillBuckets | src/autods_mcp_server/ratelimit.py:78-90 | the refill loop computes refilled levels, decision and longest wait together |
| RateLimit.BuildBucketSpecs | src/autods_mcp_server/ratelimit.py:159-170 | distinct buckets with positive rates and room for at least one token; a non-positive ceiling disables its bucket |
| RateLimit.InMemoryRateLimiter.Acquire | src/autods_mcp_server/ratelimit.py:115-122 | decides by the levels the key's whole history determines, returns the exact longest wait, and keeps the stored states equal to those levels for every key |
| RateLimit.LevelIsTightestWindow | src/autods_mcp_server/ratelimit.py:78-95 | the level is at least x iff every window starting at an earlier or the present call has room for x more |
| RateLimit.TokenBucketIsSlidingWindow | src/autods_mcp_server/ratelimit.py:78-95 | for a non-decreasing clock the buckets allow a call iff the sliding-window log of the same calls admits it, for every bucket and every start |
| RateLimit.EveryWindowConforms | src/autods_mcp_server/ratelimit.py:78-95 | in every run at most capacity + elapsed * rate calls are allowed between any two calls |
| RateLimit.AllowedFromCounts | src/autods_mcp_server/ratelimit.py:83-95 | those calls, counted: the positions of the window at which the run allows |
| DeniedCalls.DenialsLeaveNoTraceExactlyIf | src/autods_mcp_server/ratelimit.py:83-95 | for the clock readings of a run, deleting any set of denied calls changes no other decision, for all buckets and runs, iff the clock never steps forward after a step back |
| DeniedCalls.DeniedLeaveNoTrace | src/autods_mcp_server/ratelimit.py:85-95 | with such a clock, and so with every clock that never steps back, deleting any set of denied calls leaves a run with the same decisions |
| DeniedCalls.DropLowersLevel | src/autods_mcp_server/ratelimit.py:83-86 | whatever the clock does, deleting denied calls never raises a level |
| RateLimit.DropByPosition | src/autods_mcp_server/ratelimit.py:85-95 | what deleting calls means: exactly those positions go, the others keep their order |
| DeniedCalls.DeniedLeaveATrace | src/autods_mcp_server/ratelimit.py:83-86 | for every clock that does resume, a bucket, a run with these readings and denied calls whose deletion changes a later decision |
| DeniedCalls.DeniedLeaveATraceWhenTheClockStepsBack | src/autods_mcp_server/ratelimit.py:83-86 | a run at times 1, 0, 1 in which deleting the denied call changes the last decision |
| RateLimit.RetryAfterIsExact | src/autods_mcp_server/ratelimit.py:85-90 | after a denial, and any denied calls since, a call d later is allowed iff d >= retry_after and every bucket can hold one token |
| RateLimit.ShownSecondsSuffice | src/autods_mcp_server/errors.py:50-56 | the rounded-up seconds shown always suffice, and one second less does not unless 1 is shown |
| RateLimit.AnyClockBound | src/autods_mcp_server/ratelimit.py:84-94 | for any clock, levels stay in [0, capacity] and the calls allowed since any call fit capacity + rate * forward clock steps |
| RateLimit.KeyRunInRun | src/autods_mcp_server/ratelimit.py:118-122 | the calls of one key form a run of that key alone |
| RateLimit.KeysAreIndependent | src/autods_mcp_server/ratelimit.py:118-122 | deleting every call of some users changes neither the calls nor the decisions of the others |
| PayloadPaths.ResolvePath | src/autods_mcp_server/payload_paths.py:31-62 | the frontier loop with its early exit returns the depth-first meaning of the path; an empty path returns nothing |
| PayloadPaths.ResolveComposes | src/autods_mcp_server/payload_paths.py:47-62 | resolving p.q is resolving q at each match of p and concatenating |
| PayloadPaths.SegmentsOfJoinedPaths | src/autods_mcp_server/payload_paths.py:43 | the same on path texts: the segments of "p.q" are those of p and then those of q, empty ones dropped |
| PayloadPaths.ResolveIsMatching | src/autods_mcp_server/payload_paths.py:47-62 | a reference is resolved iff some position matching the path leads to it |
| DocumentOrder.MatchesLeadTo | src/autods_mcp_server/payload_paths.py:34-37 | the result lists, one for one, the references at the matching positions |
| DocumentOrder.MatchesInOrder | src/autods_mcp_server/payload_paths.py:34-37 | those positions come in document order, none twice |
| DocumentOrder.MatchesAreComplete | src/autods_mcp_server/payload_paths.py:31-62 | in a tree they are exactly the positions the path matches |
| Omit.ParentPathAndKey | src/autods_mcp_server/omit.py:60-63 | splits at the last dot |
| Omit.LintedPathSplits | src/autods_mcp_server/omit.py:145-160 | a path the lint accepts resolves as its parent's segments followed by a key that is no wildcard |
| Omit.DeletionRemoves | src/autods_mcp_server/omit.py:84-91 | deleting a key from every match of the parent path removes exactly the positions at or below the whole path |
| Omit.WithoutByPosition | src/autods_mcp_server/omit.py:87-91 | the keys left in a dictionary are those not removed, in their order |
| Omit.Payload.DeleteKey | src/autods_mcp_server/omit.py:87-91 | deletes the key from every dictionary among the parents and nothing else; matched iff one held it |
| Omit.ApplyOmit | src/autods_mcp_server/omit.py:66-100 | exactly the positions at or below a match of an entry are gone, all else keeps its value, list length and key order; the records are, in declaration order, the path, reason and other tool of the entries that removed something no earlier one did; the very same object is returned iff nothing matched; the input is not edited |
| Omit.OrderIsIrrelevant | src/autods_mcp_server/omit.py:84-91 | any order and repetition of the entries gives the client the same payload |
| Omit.ApplyingTwiceIsApplyingOnce | src/autods_mcp_server/omit.py:66-100 | a second application finds nothing to remove |
| Omit.NothingLeftToResolve | src/autods_mcp_server/omit.py:66-100 | no omit path, credential paths included, resolves to anything in the result |
| Omit.NoneRemoved | src/autods_mcp_server/omit.py:92-100 | nothing is reported iff no existing position is addressed |
| Omit.TrimAnswer | src/autods_mcp_server/mcp_transport.py:876-888 | the trimmed answer that goes out, the report beside it and the alarm are those of the lemmas below, the alarm being judged against the trimmed answer |
| Omit.CredentialAlarm | src/autods_mcp_server/omit.py:103-120 | for every trimmed answer, a credential path is reported iff something of the answer is left and all its matches in the input lay at or below a match of an earlier entry |
| Omit.UnmatchedByPosition | src/autods_mcp_server/omit.py:117-120 | the paths reported are those of the credential entries without a record, in declaration order |
| Omit.AlarmIgnoresOrderExactlyIf | src/autods_mcp_server/omit.py:103-120 | the alarm for a credential is the same in every order of the entries iff nothing of the answer is left, the input does not hold it, or some occurrence is removed by no other entry |
| Omit.AlarmDependsOnOrder | src/autods_mcp_server/omit.py:103-120 | in {"a": {"b": "t"}, "c": 1} the credential a.b is not reported when its entry comes before that of a, and reported when it comes after |
| Jwks.LastKeyWins | src/autods_mcp_server/auth/jwks.py:146 | the cache filled from a document holds exactly the ids of its keys, each with the last key of that id |
| Jwks.JWKSClient.BeginGetKey | src/autods_mcp_server/auth/jwks.py:98-101 | the fast path is the step: a fresh hit answers without the lock, anything else waits for it |
| Jwks.JWKSClient.LockGetKey | src/autods_mcp_server/auth/jwks.py:103-122 | with the lock: re-check, fetch if the throttle permits, else answer from what is there or raise the right error |
| Jwks.JWKSClient.FetchDone | src/autods_mcp_server/auth/jwks.py:134-147 | a document replaces the cache and sets its age to now; every other end leaves both, with its error; the lock is released either way |
| Jwks.JWKSClient.LockRefresh | src/autods_mcp_server/auth/jwks.py:124-133 | a forced refresh ignores the throttle and starts a new window |
| Jwks.InvAlways | src/autods_mcp_server/auth/jwks.py:98-147 | lock, cache, time and spacing invariants hold in every state of every interleaving |
| Jwks.CacheMirrorsNewestDocument | src/autods_mcp_server/auth/jwks.py:143-147 | in every reachable state the cache is the kid map of the newest document fetched, never a mix, and `_fetched_at` is the time at which that fetch ended, whatever failed since |
| Jwks.OneFetchAtATime | src/autods_mcp_server/auth/jwks.py:103-109 | at most one fetch is in flight |
| Jwks.FetchesInAnyWindow | src/autods_mcp_server/auth/jwks.py:87-96 | a window of length W holds at most floor(W / min_refresh_interval) + 1 fetches driven by get_key, for any interleaving and any outcomes |
| Jwks.AnswersAreJustified | src/autods_mcp_server/auth/jwks.py:100-122 | in every reachable state, in plain times: a key is the last one of its id in the newest document, which arrived less than ttl before the call read the clock unless the last attempt began less than min_refresh_interval ago; UnknownKid means the newest document lacks the id; JWKSUnavailable means this call's fetch failed or none ever succeeded |
| Jwks.FetchStartsExactlyIf | src/autods_mcp_server/auth/jwks.py:98-116 | with the lock, a fetch starts iff the newest document is not both fresh and in possession of the id, and no attempt began within the interval |
| Jwks.RotatedKeyIsPickedUp | src/autods_mcp_server/auth/jwks.py:98-122 | if every fetch from T on publishes kid, each get_key(kid) begun from T + min_refresh_interval on returns a key |
| Identity.CachedIdentityResolver.Get | src/autods_mcp_server/identity.py:204-212 | an expired entry is dropped and missed, a live one moves to the end |
| Identity.CachedIdentityResolver.Put | src/autods_mcp_server/identity.py:214-220 | the entry becomes the most recently used, to expire after negative_ttl if it is None and positive_ttl if not, and the eviction loop leaves exactly the last max_l1_entries |
| Identity.PutThenGet | src/autods_mcp_server/identity.py:204-220 | what was put is found until negative_ttl for a None, positive_ttl for an identity, has passed, and missed from then on |
| Identity.WriteThenRead | src/autods_mcp_server/identity.py:227-266 | what was written to Redis is read until negative_ttl for a None, positive_ttl for an identity, has passed; an identity without a user id reads as a miss |
| Identity.LookupGoesOn | src/autods_mcp_server/identity.py:186-202 | a failed Redis read is a miss, a miss asks the upstream, and its answer is returned whether or not Redis takes it; a lookup is over after at most six steps |
| Identity.CachedIdentityResolver.Resolve | src/autods_mcp_server/identity.py:186-200 | a lookup that completes before the next keeps the cache a true LRU of the lookups so far; what it puts lives as long as its sign does |
| Identity.ResolvedOnHit | src/autods_mcp_server/identity.py:204-212 | after a hit the keys are the most recently resolved users, truncated to the cap, each with its last put |
| Identity.ResolvedOnMiss | src/autods_mcp_server/identity.py:214-220 | the same after a miss, an expiry and an eviction |
| Identity.TruncateThenMove | src/autods_mcp_server/identity.py:217-220 | evicting early loses nothing: truncation before a move equals truncation after it |
| Identity.InvAlways | src/autods_mcp_server/identity.py:186-266 | every cached answer in every tier is an upstream answer within its lifetime, in every state of every run |
| Identity.AnswersAreRecent | src/autods_mcp_server/identity.py:186-220 | every answer is the upstream's for that user, a None stored less than negative_ttl ago and an identity less than positive_ttl, or, if it came through L2, less than twice that plus the read-to-put gap; without Redis that time counts from the upstream's answer; only a lookup that met a foreign value in Redis answers without an origin, with None |
| Identity.L1IsBounded | src/autods_mcp_server/identity.py:218-220 | under any interleaving no L1 exceeds its cap |
| Identity.LruAlways | src/autods_mcp_server/identity.py:204-220 | under any interleaving a worker's cached users are its most recently touched ones, in order and without a gap, each with its last put; while nothing has expired there are max_l1_entries of them, or as many as were touched |
| Identity.LiveIsByLastTouch | src/autods_mcp_server/identity.py:204-220 | the touched users, said plainly: those whose last touch is no expiry, in the order of their last touches |
| Identity.LastPutIsLast | src/autods_mcp_server/identity.py:214-220 | the last put is the one after which none of that user follows |
| Identity.LruAfterGet | src/autods_mcp_server/identity.py:204-212 | a read keeps that, a hit being a touch and an expiry a drop |
| Identity.LruAfterPut | src/autods_mcp_server/identity.py:214-220 | a put with its evictions keeps it |
| Identity.TwoTtlIsApproached | src/autods_mcp_server/identity.py:192-195 | for every slack and either sign a run in which an answer 2 * negative_ttl - slack, or 2 * positive_ttl - slack, old is returned, with no gap |
| Identity.OneTtlBoundsExactlyIf | src/autods_mcp_server/identity.py:186-220 | negative_ttl bounds the age of every None, or positive_ttl that of every identity, in every run iff there is no Redis; with gap-free answers only, iff there is no Redis or no room in L1 |
| ImageFetch.PermitsAreConserved | src/autods_mcp_server/image_fetch.py:404-414 | at every step of any calls, free permits plus the images that hold one, counted, are 12 process-wide and 6 per call |
| ImageFetch.GatedBytesAreBounded | src/autods_mcp_server/image_fetch.py:96-102 | the body bytes received by downloads behind the gates, each counted once, never exceed 12 * max_bytes |
| ImageFetch.ResidentBytesAreBounded | src/autods_mcp_server/image_fetch.py:355-374 | counting the chunks and the joined copy of a body in the decoding pool, they never exceed 24 * max_bytes between two steps |
| ImageFetch.ResidentBytesAreReached | src/autods_mcp_server/image_fetch.py:355-374 | for every ceiling of at least 2 a run of two calls that holds exactly 24 * max_bytes |
| ImageFetch.ResidentBoundExactlyIf | src/autods_mcp_server/image_fetch.py:96-102 | a number bounds the resident bytes of every run iff it is at least 24 * max_bytes |
| ImageFetch.PeakIsBounded | src/autods_mcp_server/image_fetch.py:355-358 | while a chunk is compared with the ceiling there are at most 23 * max_bytes and that chunk |
| ImageFetch.GatesRefill | src/autods_mcp_server/image_fetch.py:407-414 | once every image has ended, by any exit, both gates are full |
| ImageFetch.NeverStuck | src/autods_mcp_server/image_fetch.py:407-414 | while an image is unfinished, some image can enter a gate or take the next event of its download, without a deadline |
| ImageFetch.FetchGates.Exit | src/autods_mcp_server/image_fetch.py:413-414 | an exit in any phase gives back exactly what that phase holds |
| ImageFetch.FetchGates.Interrupt | src/autods_mcp_server/image_fetch.py:408-414 | the deadline, a fault or a cancellation ends an image in any phase and frees its permits |
| ImageFetch.FetchGates.Receive | src/autods_mcp_server/image_fetch.py:313-374 | one network event takes a download on, or ends it and frees its permits |
| ImageDownload.Stream | src/autods_mcp_server/image_fetch.py:355-360 | the body up to the ceiling, None past it; the most bytes in memory are the whole body, or its first prefix past the ceiling |
| ImageDownload.ConcatInOrder | src/autods_mcp_server/image_fetch.py:355-374 | the joined bytes come in the order of the chunks |
| ImageDownload.FetchBody | src/autods_mcp_server/image_fetch.py:313-369 | the download loop comes to what its URL delivers; at most six requests are made, all to allowed origins and along the redirects |
| ImageDownload.DeliversExactlyIf | src/autods_mcp_server/image_fetch.py:313-369 | in terms of requests, locations and URL joins: bytes are delivered iff at most five redirects, all to allowed origins, lead to a complete body of 1 to max_bytes bytes, an exception iff they lead to one that is no HTTP error |
| ImageDownload.FetchOne | src/autods_mcp_server/image_fetch.py:306-374 | the loop ends with what its URL comes to, a thumbnail, None or a fault, the same as its network events taken one by one |
| ImageDownload.DeliversOneThing | src/autods_mcp_server/image_fetch.py:313-369 | what a URL delivers is unique |
| ImageDownload.AdvanceIsSound | src/autods_mcp_server/image_fetch.py:313-374 | every network event keeps a download where the web's answers have led it, and an ended one has what its URL comes to |
| ImageFetch.BatchFollowsUrls | src/autods_mcp_server/image_fetch.py:400-438 | in every interleaving a finished call has one result per wanted URL, in order; a landed image is the encoded body its URL delivers; and a returned image is missing only if its URL delivers no body that encodes |
| ImageFetch.WantedAreTheFirst | src/autods_mcp_server/image_fetch.py:400 | the wanted URLs are the first twenty non-empty ones, in order |
| ImageFetch.BatchShowsUrls | src/autods_mcp_server/image_fetch.py:400-438 | thumbnail k of the batch is the encoded body that the k-th landed URL delivers, the landed URLs being in order |
| ImageFetch.FetchGates.FetchThumbnails | src/autods_mcp_server/image_fetch.py:421-438 | the batch from the URLs on: at strictly increasing positions, exactly those whose image landed, thumbnail k is what the URL there delivers, encoded; something is missing iff a wanted image did not land; a cancellation is raised on |
| ImageFetch.Collect | src/autods_mcp_server/image_fetch.py:422-438 | the loop over the results keeps exactly the landed ones, in order |
| Playbooks.PlaybookRegistry.Load | src/autods_mcp_server/manifests/playbooks.py:282-293 | accepts iff the names are distinct, and then holds every playbook in load order; else stops at the first whose name is taken, and reports it |
| Playbooks.PlaybookRegistry.StepsFor | src/autods_mcp_server/manifests/playbooks.py:305-307 | the reverse index answers as a full scan of all playbooks in load order |
| Playbooks.ScanFindsExactlyTheSteps | src/autods_mcp_server/manifests/playbooks.py:305-307 | that scan holds exactly the steps calling the operation |
| Playbooks.ScanInOrder | src/autods_mcp_server/manifests/playbooks.py:305-307 | each once, by load order and then by list order |
| Playbooks.NextOperationsFollow | src/autods_mcp_server/manifests/playbooks.py:241-249 | the operations that come next are those of the steps an edge leads to: the authored successors if there are any, else the step after it in the list |
| Playbooks.AssertStepsReachable | src/autods_mcp_server/manifests/playbooks.py:610-691 | over those edges: passes iff there are steps, operations are unique, entry and successors are steps and every step is reachable; otherwise reports the first of these that fails, with exactly the unreachable operations in list order; terminates on cycles |
| Playbooks.Walk | src/autods_mcp_server/manifests/playbooks.py:673-684 | the worklist visits exactly the steps on some path of those edges from the entry |
| HintSizes.MergedHintSize | src/autods_mcp_server/manifests/playbooks.py:418-431 | the merged hint is 97 characters plus each pending chain's escaped name and three |
| HintSizes.MergedHintFits | src/autods_mcp_server/manifests/playbooks.py:90-96 | so it is at most 200 iff the latter sum is at most 103 |
| HintSizes.TailSize | src/autods_mcp_server/manifests/playbooks.py:375-376 | the tail of several chains is 58 characters plus each name and four; it is at most 120 iff the latter sum is at most 62 |
| HintSizes.OneChainTail | src/autods_mcp_server/manifests/playbooks.py:369-374 | the tail of one chain says, in decimal numbers, which step of how many this is, and of which playbook |
| HintSizes.SeveralChainsTail | src/autods_mcp_server/manifests/playbooks.py:375-376 | the tail of several lists their names in order, quoted, separated by commas |
| HintSizes.TailCapSubsumesHintCap | src/autods_mcp_server/manifests/playbooks.py:796-804 | for names needing no escaping, a tail of at most 120 forces the merged hint to at most 200 |
| HintSizes.CheckIsDispensableUpTo43 | src/autods_mcp_server/manifests/playbooks.py:781-804 | in all accepted sets of playbooks whose pending names JSON lengthens by at most k, every merged hint fits iff k <= 43 |
| HintSizes.QuotedNamesOverrunTheHint | src/autods_mcp_server/manifests/playbooks.py:781-804 | two playbooks that the size lints accept, with a merged hint of 201 characters |
| HintSizes.ChainHintSize | src/autods_mcp_server/manifests/playbooks.py:379-389 | the size of the specific hint, which holds the chain's name twice |
| HintSizes.ChainHintReads | src/autods_mcp_server/manifests/playbooks.py:379-389 | the JSON text of the specific hint of a two-step chain's first step |
| HintSizes.TwoChainsHintReads | src/autods_mcp_server/manifests/playbooks.py:418-426 | the JSON text of the hint for a step of two chains with work left |
| HintSizes.EscapedLength | src/autods_mcp_server/manifests/playbooks.py:429-431 | JSON escaping adds one character for each quote, backslash and short escape, and five for each other control character |
| PlaybookHints.RenderMergedFailureHint | src/autods_mcp_server/manifests/playbooks.py:448-486 | the tail built from sets of declared values holds exactly what all declarations agree on, and errs towards caution otherwise |
| PlaybookHints.Contains | src/autods_mcp_server/manifests/playbooks.py:434-507 | which cautious and helpful clauses the tail holds, for one chain or several |
| PlaybookHints.OneChainIsNamed | src/autods_mcp_server/manifests/playbooks.py:434-445 | in one chain the tail names the step by playbook, number and total, and says what that chain does next |
| PlaybookHints.SeveralChainsAreNamed | src/autods_mcp_server/manifests/playbooks.py:468-486 | in several it names all playbooks in order, and says that recovery differs |
| PlaybookHints.TailInPlace | src/autods_mcp_server/manifests/playbooks.py:434-507 | there is a tail iff some step declares on_failure; its clauses come once each and in their fixed order |
| PlaybookHints.AddingChainsStaysCautious | src/autods_mcp_server/manifests/playbooks.py:451-466 | further chains never drop "not idempotent" or "ask the user", and never add a left-behind or verify clause |
| Dispatch.UnquoteQuote | src/autods_mcp_server/dispatch.py:139-140 | percent-decoding undoes the encoding of any bytes |
| Dispatch.QuotedByte | src/autods_mcp_server/dispatch.py:139-140 | encoding goes byte by byte: letters, digits and "_.-~" stay, any other byte becomes "%" and its two upper-case hex digits |
| Dispatch.QuotedCharacter | src/autods_mcp_server/dispatch.py:139-140 | every character of an encoded value is one of those or belongs to such a triple |
| Dispatch.QuoteIsInert | src/autods_mcp_server/dispatch.py:139-140 | an encoded value holds no slash and no brace |
| Dispatch.ReplaceIsFill | src/autods_mcp_server/dispatch.py:140 | one text replace of a placeholder is the substitution of that placeholder |
| Dispatch.ReplacingIsSimultaneous | src/autods_mcp_server/dispatch.py:130-140 | replacing one parameter after the other is simultaneous substitution, in any order |
| Dispatch.DelimitersAreKept | src/autods_mcp_server/dispatch.py:138-140 | every character but letters, digits, "_.-~%" and braces, so every "/", "?" and "#", is in the path as often as in its template, whatever the arguments |
| Dispatch.PathCanBeUndone | src/autods_mcp_server/dispatch.py:138-140 | where placeholders fill whole segments, splitting at '/' and decoding gives back the arguments |
| Dispatch.DotRemovalKeepsPathExactlyIf | src/autods_mcp_server/dispatch.py:138-140 | dot-segment removal leaves the built path as it is iff no literal segment and no argument is "." or ".." |
| Dispatch.DotArgumentTakesItsParentAway | src/autods_mcp_server/dispatch.py:138-140 | in the template /products/{id} an argument of two dots, encoded, takes the segment before it away under dot removal |
| Dispatch.BuildRequest | src/autods_mcp_server/dispatch.py:111-158 | fails iff a required parameter or body is missing, and names the first such parameter; otherwise the method is upper case, the path has the template's delimiters and no others, and query and headers hold exactly the constants and what the caller gave, which overrides them, booleans as true and false |
| ToolCall.ToolCall.Emit | src/autods_mcp_server/mcp_transport.py:669-697 | writes one line if there is a user, and marks the call audited before writing |
| ToolCall.LinesOf | src/autods_mcp_server/mcp_transport.py:666-697 | the audit lines of a finished call: at most one, exactly one iff the user is known and the logger does not fail before writing; each error type, and none, means its own outcome of limiter, validation and dispatch, and an internal error without one a raised exception |
| ToolCall.EndingOf | src/autods_mcp_server/mcp_transport.py:648-956 | how it ended: an exception gets out iff the steps before the guarded part raise, or a caught one is met by another in the catch-all or its audit line; an answer that is no error has its line |
| ToolCall.ToolCall.Start | src/autods_mcp_server/mcp_transport.py:648-720 | up to the await on the limiter, which it reaches iff there is a user and no step before raises, or to an end with those lines and that ending |
| ToolCall.ToolCall.Decide | src/autods_mcp_server/mcp_transport.py:723 | one acquire for the call's user, or the same end |
| ToolCall.ToolCall.Proceed | src/autods_mcp_server/mcp_transport.py:724-784 | up to the await on the upstream, or the same end; the upstream is asked iff the call was allowed, has valid arguments and no local handler, and no step before raises |
| ToolCall.ToolCall.ProceedAllowed | src/autods_mcp_server/mcp_transport.py:734-768 | the same once the limiter has allowed the call |
| ToolCall.ToolCall.Finish | src/autods_mcp_server/mcp_transport.py:785-942 | every outcome of the dispatch ends with those lines and that ending |
| ToolCall.ToolCall.FinishException | src/autods_mcp_server/mcp_transport.py:785-830 | the same where the dispatch raised one of its known exceptions |
| ToolCall.ToolCall.FinishResult | src/autods_mcp_server/mcp_transport.py:832-942 | the same where it returned, ok or not |
| ToolCall.ToolCall.CatchAll | src/autods_mcp_server/mcp_transport.py:943-956 | writes the line if none was attempted, and answers with an error unless one of its steps raises |
| ToolCall.ToolCall.OnCallTool | src/autods_mcp_server/mcp_transport.py:644-956 | a call that nothing interleaves with: at most one acquire, and the lines and the ending above |
| ToolCall.ToolServer.Decide | src/autods_mcp_server/mcp_transport.py:722-723 | in any interleaving of calls the limiter's decision on one of them adds at most one acquire, and only allowed acquires have led upstream |
| ToolCall.ToolServer.Proceed | src/autods_mcp_server/mcp_transport.py:724-784 | the same when one of them goes on to the upstream |
| ToolCall.DispatchesFitTheBuckets | src/autods_mcp_server/mcp_transport.py:722-784 | between any two calls of a user in the limiter's log, at most capacity + elapsed * rate of that user's calls reach the upstream, for each bucket |

## Left out

- RedisRateLimiter and ratelimit.lua: the script is said to mirror `evaluate_buckets` line for line, and that function is modelled.
- Floating-point rounding: tokens, rates and times are reals.
- Identity.AnswersAreRecent: all workers and the shared store read one clock; clocks running at different rates are not modelled.
- Identity.CachedIdentityResolver.Resolve: speaks of lookups that complete one after the other; interleaved lookups are the subject of `Identity.LruAlways`.
- ImageFetch.ResidentBytesAreBounded: counts the bytes of downloads behind the gates; a decode that goes on in the thread pool after its deadline, and what the HTTP library buffers, hold theirs outside. The joined copy of a body of one chunk, which Python may share, is counted.
- ImageFetch.FetchGates.Interrupt: an interruption may strike at any step, which covers every deadline; the clock itself is not modelled.
- Jwks.RotatedKeyIsPickedUp: says that an answer, when it comes, is a key; that waiting calls get the lock eventually is the event loop's doing.
- Omit.ApplyOmit: the payload is a tree, as parsed JSON is; a payload with shared containers is not modelled. The `detail` and `see` conditions of the lint are single checks.
- Dispatch.BuildRequest: templates whose placeholders nest are not modelled; `str()` of a value that is no boolean is taken as given.
- Dispatch.DotRemovalKeepsPathExactlyIf: whether the HTTP library removes dot segments is not part of this model.
- ToolCall.ToolCall.Finish: cancellation is not modelled; the post-processing of a successful result, with its await on the thumbnails, is one step that may raise.
- PlaybookHints.RenderMergedFailureHint: the tail is the list of its clauses, not the sentence they are joined to; its length cap is a single check.
- HintSizes.CheckIsDispensableUpTo43: of the other boot lints it takes the names, the chain's graph and the size caps; its witness declares no texts that the remaining ones could refuse.
- JWT signature checks, HTTP transport, the MCP SDK, Pillow, the CDN rewrite table, settings, widgets, OAuth metadata and the remaining boot lints: library calls, input and output, or one branch.
