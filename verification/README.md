# Verified models of the ticket platform's stateful algorithms

Dafny models of the small stateful algorithms behind the dashboard, the software-engineering
team's ticket handling, the agent registry, the memory search and the migration script, with
proofs of what they guarantee over every input, every run and every interleaving.
`dafny verify dfyconfig.toml` checks the whole project.

| module | models |
|---|---|
| `RateLimiter` | the per-IP sliding-window request limiter |
| `DataCache` | the 30-second dashboard cache shared by handler threads, and the ETag sent with it |
| `Cosine`, `SimilarityGraph`, `Heatmap` | TF-IDF similarity, the edges of the ticket graph, the module heatmap |
| `ClusterDiscovery`, `ClusterRace`, `ClusterGrowth`, `BatchResolution` | growing clusters of similar tickets, one call at a time and interleaved; resolving siblings together |
| `AgentRegistry`, `RegistryHub`, `RegistryNetwork` | agent cards with expiry and selection; many registries mirroring to one hub over a lossy network |
| `CircuitBreaker` | failure window, pause, persistence and restart |
| `SearchMerge` | merging full-text and semantic search results, top k |
| `Assignment`, `StuckTickets`, `Draining` | the orchestrator's greedy assignment, its corrective patches, and how stuck lists drain |
| `TicketBuckets` | dashboard tabs: bucketing and the two-pass sort |
| `Migration` | paged backup and batched restore |
| `StableSort`, `OrderedDict`, `Tickets`, `Common` | shared vocabulary: stable sorting, insertion-ordered dictionaries, ticket states, counting and filtering |

Classes and loops in the source are classes and loops here. Each such method is proved against a
specification function, and lemmas about that function state what the operation guarantees.

## Where the code does less than it seems to promise

In each case the code is modelled as it is, and the exact condition is proved.

- The limiter reads its clock before taking its lock. If a request can be stamped up to `d` seconds
  before an earlier one of its IP, windows of a given length are bounded exactly when length + d is
  at most 60 (`RateLimiter.WindowsBoundedIff`).
- The ETag of an answer is read in a second critical section. In every run it is the answer's own exactly
  when the last write before the ETag was read has the same tag as the last write before the answer
  (`DataCache.OwnTagIff`); whenever two results have different etags some interleaving sends one with the
  etag of the other (`DataCache.EtagCanBelongToOtherData`).
- A slow request can set the cache back to an older time. Over a run the cache time never falls exactly
  when no thread finishes with an older clock reading than the cache's (`DataCache.CacheTimeRisesIff`,
  `DataCache.CacheTimeCanGoBack`).
- Cluster lookups report a failed RPC as "no cluster". From disjoint clusters a call keeps them
  disjoint exactly when it is not about to write a ticket that sits in another cluster
  (`ClusterDiscovery.DisjointIff`); working lookups guarantee that, one failed lookup is enough to break it.
  A call whose write is lost still answers the cluster id (`ClusterDiscovery.AnswerIsRightIff`).
- Working lookups do not help interleaved calls. A run stays disjoint exactly when no write collides with
  what is there, and a collision always means that another call wrote the ticket between this call's lookup
  and its write (`ClusterRace.StaysDisjointIff`, `ClusterRace.DisjointIffNotOvertaken`).
- Interleaved calls can also lose members: two that join one cluster at once leave only the second ticket in
  it (`ClusterGrowth.JoinLost`). Over a run clusters only grow exactly when no patch comes after another call
  has written the row, since this call's fetch, with members the patch does not have
  (`ClusterGrowth.OnlyGrowsIff`).
- A cluster is flagged resolved exactly when one call resolved every sibling itself and the flag could be
  saved. A sibling
  resolved earlier keeps it open although all members are resolved (`BatchResolution.FlagIff`,
  `BatchResolution.EarlierResolvedKeepsClusterOpen`; the same condition before the call is
  `BatchResolution.FlagForetold`).
- The hub reads a missing name as the empty string when a card is posted and as null when it is listed. So
  cards posted without a name pile up, one per post, exactly as long as no post whose name is an explicit null
  follows one of them; such a post drops all nameless cards before it (`RegistryHub.NamelessPileUpIff`,
  `RegistryHub.NamelessSinceNull`).
- Unregistering is local: the next pull undoes it exactly when the hub still lists the name
  (`RegistryNetwork.UnregisterUndoneIff`).
- A success can trip the breaker: the k-th success in a row can do so exactly when the window has at
  least five slots and k <= (1 - p) * W (`CircuitBreaker.RecoveryBound`).
- "Keeping the higher similarity score" would fail for duplicate full-text ids, where the last row wins; it
  holds exactly when no duplicate hides a higher score (`SearchMerge.KeepsMaximumIff`). With the shipped
  storage it always holds: its full-text search is one unjoined select on a table whose id is the primary key,
  so ids are distinct (`SearchMerge.DistinctIdsHideNothing`). Duplicates need another storage adapter.
- The assignment rule's comment promises the bot with the fewest tickets. A dry run keeps that; a live
  run counts each assignment twice, and for any number of bots keeps it exactly when the initial loads are
  fair in the sense of `Assignment.PicksFewestIff`. The counts of `team-beta` and of `bot-alpha` are never
  read (`Assignment.InitialLoad`).
- The evidence of a stuck finding is its first 20 tickets, whether or not they can be patched. Left alone,
  with patches that may succeed in one cycle and fail in another, a stuck list empties exactly when it never
  jams, that is, when no cycle is reached from which on none of the first 20 can ever be patched
  (`Draining.DrainsIffNeverJammed`). When a ticket's patch always works or always fails, this says that every
  ticket of the list can be patched (`Draining.DrainsIff`), and a single ticket leaves exactly when it can be
  patched and fewer than 20 that cannot stand before it (`Draining.TicketLeavesIff`): 20 tickets whose patches
  keep failing starve all those behind them. Left alone means that no ticket becomes or stops being stuck
  between cycles, through age or otherwise.
- A backup stops silently at a failing page and at a server that caps responses below 1000 rows, and
  exits with 0 all the same; only a missing connection breaks it off (`Migration.BackupCompleteIff`,
  `Migration.RoundTripIff`, `Migration.Backup`).

## Model

| member | source | states |
|---|---|---|
| RateLimiter.Limiter.CheckRateLimit | scripts/ops/dashboard_server.py:2499-2519 | rejects exactly when the pruned bucket of the request's own history is full; every IP's bucket stays the one its history determines |
| RateLimiter.FullMeaning | scripts/ops/dashboard_server.py:2512-2519 | rejected exactly when 100 timestamps stand from the first on that is at most 60 seconds old, and what the bucket then is |
| RateLimiter.BucketIsSuffix | scripts/ops/dashboard_server.py:2507-2519 | the bucket is a suffix of the whole admitted history, never longer than 100, and all that was dropped had expired for some request |
| RateLimiter.WindowBound | scripts/ops/dashboard_server.py:2506-2519 | for every run with timestamps lagging by at most d, every real window of length 60 - d of the admitted history, wherever it ends, holds at most 100 |
| RateLimiter.EveryWindowBounded | scripts/ops/dashboard_server.py:2499-2519 | in clock order, every 60-second window of every IP holds at most 100 admitted requests |
| RateLimiter.WindowsBoundedIff | scripts/ops/dashboard_server.py:2506-2507 | the bound holds on all runs for windows of a length exactly when length plus lag is at most 60 |
| RateLimiter.OverfullWindow | scripts/ops/dashboard_server.py:2506-2519 | a run that puts 101 admissions in a window whenever length plus lag exceeds 60 |
| RateLimiter.PrunedBucketIsWindow | scripts/ops/dashboard_server.py:2512-2516 | in clock order the pruned bucket is exactly the admissions of the last 60 seconds, in order |
| RateLimiter.SameAnswerAsRescan | scripts/ops/dashboard_server.py:2507-2519 | request by request the answer equals that of counting the whole admitted history |
| RateLimiter.SameAsNaive | scripts/ops/dashboard_server.py:2507-2519 | limiter and naive rescanning limiter, each run on its own history, admit the same requests |
| RateLimiter.HistoryOrdered | scripts/ops/dashboard_server.py:2512-2518 | in clock order the admitted history is sorted |
| RateLimiter.OtherIpsIrrelevant | scripts/ops/dashboard_server.py:2508-2511 | an IP's bucket and admissions depend on its own requests only |
| DataCache.SharedCache.GetCachedDashboardData | scripts/ops/dashboard_server.py:1933-1990 | requests one after another: the answer is always the latest result ever written, however the fetch ends; a result is written exactly when none is younger than 30 seconds and the fetch ended in time; so any two writes lie at least 30 seconds apart, whatever the clock does |
| DataCache.AloneIsServe | scripts/ops/dashboard_server.py:1941-1990 | the interleaved model's five steps of one thread, run undisturbed, give the answer and cache of the sequential method |
| DataCache.NextKeepsInv | scripts/ops/dashboard_server.py:1941-1990 | every atomic step of any thread keeps: cache is one finished fetch, answers justified, etags traced to the write they come from |
| DataCache.EveryRun | scripts/ops/dashboard_server.py:1941-1990 | under every interleaving data, time and etag come from one fetch; a fast answer's fetch began less than 30 seconds before the request; every other answer is a finished fetch's result or empty |
| DataCache.OwnTagIff | scripts/ops/dashboard_server.py:9450-9453 | for every response of every run: the etag sent is the answer's own exactly when the last writes before the two critical sections have the same tag |
| DataCache.EtagTellsSummaries | scripts/ops/dashboard_server.py:1979-1985 | the etag is the quoted hash of the summary, so it tells apart exactly the summaries the hash tells apart |
| DataCache.EtagCanBelongToOtherData | scripts/ops/dashboard_server.py:9450-9453 | witness: for any two results with different etags a run that sends one under the etag of the other |
| DataCache.StepSetsBackIff | scripts/ops/dashboard_server.py:1986-1989 | a step lowers the cache time exactly when a thread finishes its fetch with an older clock reading than the cache's |
| DataCache.CacheTimeRisesIff | scripts/ops/dashboard_server.py:1941-1989 | over a run the cache time never falls exactly when no step does that |
| DataCache.CacheTimeCanGoBack | scripts/ops/dashboard_server.py:1941-1989 | witness: a run in which a slow request replaces a newer result and sets the time back |
| Cosine.SimilarityLaw | src/swe_team/batch_resolution.py:266-275 | similarity times norms is the inner product; 0 when a norm is zero or the lengths differ |
| Cosine.ThresholdIff | scripts/ops/dashboard_server.py:2310-2311 | the similarity reaches a threshold exactly when both norms are positive and the inner product reaches its share of their product |
| Cosine.DotSnoc | src/swe_team/batch_resolution.py:270 | the inner product adds up the products of the components |
| Cosine.CauchySchwarz | src/swe_team/batch_resolution.py:270-275 | the inequality for vectors of any length, with what equality implies |
| Cosine.SimilarityRange | src/swe_team/batch_resolution.py:266-275 | the similarity lies in [-1, 1], on every branch |
| Cosine.SimilaritySymmetric | src/swe_team/batch_resolution.py:266-275 | swapping the vectors changes nothing |
| Cosine.SimilarityScaleInvariant | src/swe_team/batch_resolution.py:266-275 | scaling a vector by a positive factor changes nothing |
| Cosine.SimilarityOneIff | src/swe_team/batch_resolution.py:266-275 | it is 1 exactly for vectors of the same direction |
| Cosine.SelfSimilarity | src/swe_team/batch_resolution.py:266-275 | a non-zero vector has similarity 1 with itself |
| Cosine.NonNegativeSimilarity | scripts/ops/dashboard_server.py:2297-2303 | on vectors without negative components it lies in [0, 1] |
| SimilarityGraph.BuildFrequencies | scripts/ops/dashboard_server.py:2276-2280 | exactly the tokens that occur, each with the number of titles it occurs in, as a cardinality |
| SimilarityGraph.TermFrequencies | scripts/ops/dashboard_server.py:2286-2289 | exactly the tokens of the title with their multiplicity |
| SimilarityGraph.BuildVector | scripts/ops/dashboard_server.py:2286-2295 | the loop over token counts, in any order, fills the vector whose every component is the TF-IDF weight |
| SimilarityGraph.TfIdfMeaning | scripts/ops/dashboard_server.py:2291-2294 | each component is the token's share of the title times ln((n+1)/(df+1)) + 1, with df a number of titles |
| SimilarityGraph.TfIdfNonNegative | scripts/ops/dashboard_server.py:2286-2295 | no component is negative, as a document frequency never exceeds the number of titles |
| SimilarityGraph.BuildEdges | scripts/ops/dashboard_server.py:2307-2316 | exactly the pairs at or above 0.75, each once, in index order, all at most 1; and these are the pairs of non-zero vectors whose inner product reaches 0.75 of the product of their norms |
| SimilarityGraph.TfIdfSimilarityRange | scripts/ops/dashboard_server.py:2286-2303 | similarities of titles lie in [0, 1] |
| SimilarityGraph.SimilarityOrderFree | scripts/ops/dashboard_server.py:2282-2303 | the similarity of two titles is the same for every order of the vocabulary |
| SimilarityGraph.BuildGraph | scripts/ops/dashboard_server.py:2273-2316 | from titles to edges: an edge joins two titles exactly when their vectors, over any order of the vocabulary, are non-zero and their inner product reaches 0.75 of the product of their lengths; each once, with a similarity in [0.75, 1] |
| Heatmap.BuildCells | scripts/ops/dashboard_server.py:2318-2334 | the loops end with k(k+1)/2 on the diagonal and products elsewhere, k being the multiplicity of the module |
| Heatmap.TriangleClosedForm | scripts/ops/dashboard_server.py:2328-2330 | the diagonal count has the closed form k(k+1)/2 |
| Heatmap.PairsSymmetric | scripts/ops/dashboard_server.py:2331-2334 | the matrix is symmetric |
| Heatmap.UpperTriangleTotal | scripts/ops/dashboard_server.py:2324-2334 | the upper triangle with diagonal sums to n(n+1)/2 |
| ClusterDiscovery.GraphStore.DiscoverCluster | src/swe_team/batch_resolution.py:178-230 | the filter loop and the search loop compute the specified answer and store, failed searches included |
| ClusterDiscovery.SimilarMeaning | src/swe_team/batch_resolution.py:191-197 | the similar tickets are those the search found at the threshold or above, without the ticket itself |
| ClusterDiscovery.SimilarOrder | src/swe_team/batch_resolution.py:192-197 | in the order the search found them |
| ClusterDiscovery.DiscoverMeaning | src/swe_team/batch_resolution.py:178-230 | the ends of a call: the own cluster, nothing, the cluster of the first similar ticket that has one, or a new cluster of all |
| ClusterDiscovery.DiscoverEffect | src/swe_team/batch_resolution.py:178-230 | which tickets a call places and where; every old cluster only grows at its end |
| ClusterDiscovery.DisjointIff | src/swe_team/batch_resolution.py:199-230 | from disjoint clusters a call stays disjoint exactly when it misplaces no ticket |
| ClusterDiscovery.WorkingLookupsMisplaceNothing | src/swe_team/batch_resolution.py:178-216 | with working lookups nothing is misplaced |
| ClusterDiscovery.FailedLookupSplits | src/swe_team/knowledge_store.py:366-375 | one failed lookup, with all other tickets found, suffices to put a ticket into two clusters |
| ClusterDiscovery.EveryRun | src/swe_team/batch_resolution.py:162-236 | over any run with working lookups clusters stay disjoint, only grow, never merge, and no ticket moves |
| ClusterDiscovery.AnswerIsRightIff | src/swe_team/batch_resolution.py:178-230 | with working lookups the returned id is the one cluster that holds the ticket, or none does, exactly when the write works or none is needed |
| ClusterRace.AloneIsDiscover | src/swe_team/batch_resolution.py:162-236 | the interleaved steps of one undisturbed call do what the atomic call does |
| ClusterRace.StepDisjointIff | src/swe_team/knowledge_store.py:377-434 | a write keeps clusters disjoint exactly when none of its tickets sits in another cluster |
| ClusterRace.NextKeepsInv | src/swe_team/batch_resolution.py:178-230 | while clusters are disjoint, every step of any call keeps: a claimed ticket found elsewhere was written there by another call since its lookup |
| ClusterRace.CollisionIsOvertaking | src/swe_team/batch_resolution.py:199-230 | a collision only happens when another call wrote the ticket between the lookup and this write |
| ClusterRace.StaysDisjointIff | src/swe_team/batch_resolution.py:178-230 | a run of interleaved calls stays disjoint exactly when no write collides |
| ClusterRace.DisjointIffNotOvertaken | src/swe_team/batch_resolution.py:178-230 | with working lookups a run in which no call is overtaken stays disjoint, and as long as clusters only grow, only such a run does |
| ClusterRace.BothCreate | src/swe_team/batch_resolution.py:214-224 | witness: two similar tickets discovered at once end in two overlapping clusters |
| ClusterGrowth.StepGrowsIff | src/swe_team/knowledge_store.py:404-428 | while every list ever written is the beginning of its row, a step keeps all members exactly when it does not overwrite what another call wrote since its fetch |
| ClusterGrowth.OnlyGrowsIff | src/swe_team/knowledge_store.py:398-434 | over every run of interleaved calls clusters only grow exactly when no step overwrites |
| ClusterGrowth.GrowingDisjointIff | src/swe_team/batch_resolution.py:178-230 | in a run without overwriting clusters stay disjoint exactly when no call is overtaken |
| ClusterGrowth.JoinLost | src/swe_team/knowledge_store.py:404-428 | witness, from one cluster of one ticket: two calls join it at once and only the second ticket stays |
| BatchResolution.Resolver.OnTicketResolved | src/swe_team/batch_resolution.py:44-159 | resolves the first cap eligible siblings and flags the cluster when none remains |
| BatchResolution.Resolver.TrySibling | src/swe_team/batch_resolution.py:89-139 | one sibling is resolved exactly when eligible; otherwise nothing changes (a write whose reply is lost is left out) |
| BatchResolution.EligibleMeaning | src/swe_team/batch_resolution.py:89-127 | the checks of the loop body in the source's terms, the audit's 200 characters and attempt rule included |
| BatchResolution.EligibleIdsMeaning | src/swe_team/batch_resolution.py:80-130 | the eligible list holds exactly the eligible members, each once |
| BatchResolution.OnlyEligibleChange | src/swe_team/batch_resolution.py:80-139 | a ticket changes exactly if listed as resolved, at most cap of them, no finished one and not the ticket itself |
| BatchResolution.LeftOpenMeansCapped | src/swe_team/batch_resolution.py:85-87 | an eligible sibling is left open only when the cap was used up on earlier ones |
| BatchResolution.FlagIff | src/swe_team/batch_resolution.py:141-150 | the flag is raised exactly when the call itself resolved every sibling |
| BatchResolution.FlagForetold | src/swe_team/batch_resolution.py:80-150 | before the call: exactly when every sibling is eligible at one of its positions and the cap has room for all eligible ones |
| BatchResolution.EarlierResolvedKeepsClusterOpen | src/swe_team/batch_resolution.py:93-150 | all members resolved, yet the cluster stays open |
| AgentRegistry.Registry.Register | src/swe_team/agent_registry.py:122-152 | refuses nameless cards; both maps keep equal key sets |
| AgentRegistry.Registry.Unregister | src/swe_team/agent_registry.py:196-207 | removes the name from both maps, reports whether it was there |
| AgentRegistry.Registry.SetStatus | src/swe_team/agent_registry.py:374-382 | changes one card's status and nothing else |
| AgentRegistry.Registry.DiscoverFromHub | src/swe_team/agent_registry.py:224-235 | takes over the named cards in the hub's order |
| AgentRegistry.Registry.ExpireStale | src/swe_team/agent_registry.py:388-399 | pops the stale names; both maps keep equal key sets |
| AgentRegistry.ExpireKeepsFresh | src/swe_team/agent_registry.py:388-399 | exactly the cards at most ttl old survive, unchanged and in order |
| AgentRegistry.Registry.SelectAgent | src/swe_team/agent_registry.py:330-355 | the first by (priority, insertion order) of the pool, None exactly if the pool is empty |
| AgentRegistry.Choose | src/swe_team/agent_registry.py:345-355 | sort and walk pick the first by priority of the tier-tagged candidates, or of all |
| AgentRegistry.EligibleMeaning | src/swe_team/agent_registry.py:334-340 | the eligible cards: cached, not excluded, online unless said otherwise, with a skill of that id or tag |
| AgentRegistry.PoolMeaning | src/swe_team/agent_registry.py:348-355 | all eligible cards, or those of the tier if severity is critical or high and there is one |
| AgentRegistry.PoolOrder | src/swe_team/agent_registry.py:334-346 | cards stand in the pool in insertion order |
| AgentRegistry.FirstByPriorityMeaning | src/swe_team/agent_registry.py:345-346 | the choice has the lowest priority, 100 by default, and is the earliest of those |
| AgentRegistry.PoolEmptyIff | src/swe_team/agent_registry.py:334-343 | the pool is empty exactly when no cached, online, non-excluded agent has the skill |
| RegistryHub.Hub.RegisterAgent | src/a2a/server.py:511-517 | the list stays the one the delivered posts determine, with missing names and null names told apart as the handler does |
| RegistryHub.AcceptMeaning | src/a2a/server.py:513-517 | what a post replaces: its own name; all nameless cards if its name is null; the empty name if it has none |
| RegistryHub.DeliveredIsListed | src/a2a/server.py:511-517 | a named card that reached the hub is listed by its name |
| RegistryHub.NamesUnique | src/a2a/server.py:511-517 | no name is listed twice |
| RegistryHub.HubHoldsLastPosts | src/a2a/server.py:511-517 | the hub lists exactly the cards of posts no later post replaced, by the key a post is filed under and the key a listed card is compared by |
| RegistryHub.NamesNeverLost | src/a2a/server.py:511-517 | a listed name stays listed whatever is posted |
| RegistryHub.NamelessSinceNull | src/a2a/server.py:513-516 | the nameless cards listed are exactly the nameless posts from the last explicit-null post on, in order |
| RegistryHub.NamelessPileUpIff | src/a2a/server.py:513-516 | no nameless card is lost exactly when no explicit-null post follows a nameless one |
| RegistryNetwork.RegisterEffect | src/swe_team/agent_registry.py:141-152 | a registration is cached, stamped and posted to the hub; a nameless one does nothing |
| RegistryNetwork.PostEffect | src/a2a/server.py:412-418 | a post of another sender only takes off |
| RegistryNetwork.DeliverEffect | src/a2a/server.py:412-418 | a delivery moves one post from its flight to the end of what the hub got |
| RegistryNetwork.ExpireAndPullAreLocal | src/swe_team/agent_registry.py:226-399 | expiry and pulling change one registry only |
| RegistryNetwork.UnregisterEffect | src/swe_team/agent_registry.py:196-207 | unregistering changes one registry; the network and the hub are not told |
| RegistryNetwork.ChangeStatusEffect | src/swe_team/agent_registry.py:374-382 | a status change touches one card of one registry |
| RegistryNetwork.EveryPostAccounted | src/swe_team/agent_registry.py:150-152 | every run posts exactly its named registrations and the posts of others, in order, and each is in flight, delivered or lost |
| RegistryNetwork.RegisteredIsListed | src/swe_team/agent_registry.py:150-152 | a registration that is neither lost nor in flight is listed by the hub |
| RegistryNetwork.NextKeepsSound | src/swe_team/agent_registry.py:122-258 | every event of many registries, with posts lost, delayed or reordered, keeps the invariant and loses no name |
| RegistryNetwork.EveryRun | src/a2a/server.py:412-418 | after every run registries are consistent, the hub holds exactly the last posts that reached it, each name once |
| RegistryNetwork.NoRunLosesName | src/a2a/server.py:511-517 | no continuation of a run takes a listed name off the hub |
| RegistryNetwork.PullAgreesWithHub | src/swe_team/agent_registry.py:226-235 | right after a pull the registry's card equals the hub's for every named entry |
| RegistryNetwork.PullLeavesOthers | src/swe_team/agent_registry.py:226-235 | a pull leaves names the hub does not list alone |
| RegistryNetwork.UnregisterUndoneIff | src/swe_team/agent_registry.py:196-235 | an unregistered agent returns with the next pull exactly when the hub still lists it |
| CircuitBreaker.TripRule | src/swe_team/circuit_breaker.py:60-64 | the rule: at least five results, of which failures are at least the threshold's share |
| CircuitBreaker.RecordEffect | src/swe_team/circuit_breaker.py:78-92 | a record sets the pause exactly when the window then meets the rule, and else leaves it |
| CircuitBreaker.Breaker.RecordResult | src/swe_team/circuit_breaker.py:78-94 | keeps memory and file equal to what the full event history determines; the window drops its oldest outcome once full |
| CircuitBreaker.Breaker.RecordSkip | src/swe_team/circuit_breaker.py:96-107 | a skip changes nothing but the history |
| CircuitBreaker.Breaker.ClearPause | src/swe_team/circuit_breaker.py:109-112 | ends the pause, keeps the window |
| CircuitBreaker.Breaker.constructor | src/swe_team/circuit_breaker.py:21-44 | a restarted process resumes what was saved |
| CircuitBreaker.Breaker.RemoveStateFile | scripts/ops/swe_orchestrator.py:829-834 | removing the file leaves the running process as it is |
| CircuitBreaker.Breaker.IsPaused | src/swe_team/circuit_breaker.py:66-76 | paused exactly when some surviving, uncleared record tripped less than the pause duration ago |
| CircuitBreaker.HistoryDecides | src/swe_team/circuit_breaker.py:21-112 | after any events, failed saves, restarts and lost files included, window and pause are functions of the surviving history |
| CircuitBreaker.SavedHistorySurvives | src/swe_team/circuit_breaker.py:33-57 | with successful saves the window is the last W of all recorded outcomes, whatever the restarts |
| CircuitBreaker.PausedIffRecentTrip | src/swe_team/circuit_breaker.py:66-94 | on a non-decreasing clock, paused is having a recent uncleared trip |
| CircuitBreaker.PauseOverHistory | src/swe_team/circuit_breaker.py:66-94 | paused exactly when some surviving record with no clear after it is recent and the last min(n, W) of the n outcomes up to it, at least five, met the threshold |
| CircuitBreaker.RecoveryBound | src/swe_team/circuit_breaker.py:78-92 | the k-th success in a row can trip, for some past, exactly when W >= 5 and k <= (1-p)W |
| CircuitBreaker.TripsAfterSuccesses | src/swe_team/circuit_breaker.py:59-92 | from any past, more than (1-p)W successes never trip |
| CircuitBreaker.StreakRecovers | src/swe_team/circuit_breaker.py:21-112 | after any history, clears, restarts and lost files included, the last of more than (1-p)W recorded successes trips nothing and leaves the pause as it was |
| CircuitBreaker.SuccessCanTrip | src/swe_team/circuit_breaker.py:84-88 | the run of failures after which a success still trips |
| SearchMerge.Search | memory/src/server.ts:291-321 | a prefix of the ranked rows: of length min(limit, 100, number of ids), empty for NaN, short of the last -limit rows for a negative limit; distinct ids, scores non-increasing with missing ones as 0 |
| SearchMerge.MergeIds | memory/src/server.ts:310-317 | ids are those of the two lists, each once, with an input row of that id |
| SearchMerge.KeptIsFirstBest | memory/src/server.ts:312-317 | of several best rows of an id the first in order stays, full text before semantic |
| SearchMerge.KeepsMaximumIff | memory/src/server.ts:309-317 | each id has the maximum of its scores exactly when no full-text duplicate hides a higher one |
| SearchMerge.DistinctIdsHideNothing | memory/src/server.ts:309-317 | with distinct full-text ids the maximum is kept |
| SearchMerge.DuplicateLosesMaximum | memory/src/server.ts:311 | witness, for a storage that repeats an id: the last row wins and the higher score is lost |
| SearchMerge.TopK | memory/src/server.ts:319-321 | for every cut: one row per id, scores non-increasing, ties in Map order, no row after the cut beats one before it |
| Assignment.AssignIssues | scripts/ops/swe_orchestrator.py:1130-1172 | at most 10 successes, each assignable issue tried once and in order up to the stop, every pick greedy, early stop only at the cap |
| Assignment.AssignOne | scripts/ops/swe_orchestrator.py:1147-1170 | one attempt keeps the two load tables in step with the picks |
| Assignment.TargetsMeaning | scripts/ops/swe_orchestrator.py:1134-1145 | the issues tried are exactly the assignable ones, strictly ascending |
| Assignment.EffectiveMeaning | scripts/ops/swe_orchestrator.py:1147-1170 | the load a choice goes by: base plus one per dry win or two per live win, wins counted as a set of picks |
| Assignment.GreedyAt | scripts/ops/swe_orchestrator.py:1134-1148 | every pick of a run: fewer than ten successes before it, and the first bot of least load then |
| Assignment.BalanceBound | scripts/ops/swe_orchestrator.py:1147-1170 | a bot that received work ends at most one step (2 live, 1 dry) above any other |
| Assignment.LevelStartStaysLevel | scripts/ops/swe_orchestrator.py:1147-1170 | equal starts end within one assignment, whichever commands fail |
| Assignment.PicksFewestIff | scripts/ops/swe_orchestrator.py:1103-1170 | every pick of every run goes to a bot with the fewest tickets exactly in a dry run or when the initial loads are fair: for any two bots the one with fewer catches up before the other's turn, or that turn lies beyond the cap |
| Assignment.InitialLoad | scripts/ops/swe_orchestrator.py:1083-1124 | which counts are read |
| StuckTickets.StuckMeaning | scripts/ops/swe_orchestrator.py:276-284 | stuck are exactly the rows of the status with a readable age above the threshold |
| StuckTickets.Orchestrator.Detect | scripts/ops/swe_orchestrator.py:269-310 | the evidence names only such rows, the first 20, and all of them if they are fewer |
| StuckTickets.Orchestrator.FixStuck | scripts/ops/swe_orchestrator.py:807-827 | the table and the count after the patches, live and dry |
| StuckTickets.Orchestrator.FixExhausted | scripts/ops/swe_orchestrator.py:1006-1040 | the table and the count after both passes, each querying the 50 latest updated tickets, the second on what the first left |
| StuckTickets.Orchestrator.FixDesync | scripts/ops/swe_orchestrator.py:1174-1201 | the table and the count after reopening |
| StuckTickets.Orchestrator.AutoFix | scripts/ops/swe_orchestrator.py:1203-1207 | one cycle over both findings |
| StuckTickets.FixEffect | scripts/ops/swe_orchestrator.py:813-826 | ticket by ticket, fixing changes exactly the reached ones, and how |
| StuckTickets.DesyncEffect | scripts/ops/swe_orchestrator.py:1180-1200 | ticket by ticket, exactly the named done ones are reopened |
| StuckTickets.RetryEffect | scripts/ops/swe_orchestrator.py:1011-1039 | ticket by ticket, exactly the queried exhausted ones get a new chance |
| StuckTickets.QueriedMembers | scripts/ops/swe_orchestrator.py:1012 | the query answers only tickets of the status, and all of them if they are fewer than its limit |
| StuckTickets.QueriedAreLatest | scripts/ops/swe_orchestrator.py:1012 | the query leaves out no ticket of the status updated later than one it answers |
| StuckTickets.NoActionActivates | scripts/ops/swe_orchestrator.py:1006-1201 | no action moves a ticket into investigating or in_development |
| StuckTickets.RelaxedMeaning | scripts/ops/swe_orchestrator.py:1006-1201 | what that means: a row that is investigating or in_development afterwards was so before |
| StuckTickets.RelaxedStuckShrinks | scripts/ops/swe_orchestrator.py:269-310 | whatever such actions do, no ticket becomes stuck |
| Draining.CycleRemovesReached | scripts/ops/swe_orchestrator.py:807-827 | a cycle leaves, per status, exactly the stuck tickets it did not reach, in order |
| Draining.CycleDropsFirst | scripts/ops/swe_orchestrator.py:807-827 | when every stuck ticket can be patched it removes exactly the first 20 |
| Draining.DrainBound | scripts/ops/swe_orchestrator.py:269-310 | if nothing newly gets stuck and patches work, n tickets are gone after ceil(n/20) cycles |
| Draining.CycleIsSweep | scripts/ops/swe_orchestrator.py:807-827 | for any failing patches, a cycle leaves of a stuck list the unpatchable ones of its first 20 and all the others |
| Draining.EmptiesUnlessJammed | scripts/ops/swe_orchestrator.py:269-310 | if it never jams the list empties, whatever takes other tickets off it between cycles |
| Draining.DrainsIffNeverJammed | scripts/ops/swe_orchestrator.py:807-827 | left alone, with patches that come and go, the list empties exactly when no cycle is reached from which on none of its first 20 can ever be patched |
| Draining.DrainsIff | scripts/ops/swe_orchestrator.py:807-827 | left alone, when each ticket's patch always works or always fails, the list empties exactly when every stuck ticket has an id and a working patch |
| Draining.TicketLeavesIff | scripts/ops/swe_orchestrator.py:304 | left alone, when each ticket's patch always works or always fails, a stuck ticket leaves exactly when it can be patched and fewer than 20 that cannot stand before it |
| TicketBuckets.Dashboard.FillBuckets | scripts/ops/dashboard_data.py:315-344 | each tab gets its tickets in input order |
| TicketBuckets.Dashboard.Build | scripts/ops/dashboard_data.py:314-351 | two passes give one stable lexicographic sort per tab |
| TicketBuckets.TabsPartition | scripts/ops/dashboard_data.py:79-97 | the three tabs hold every ticket exactly as often as the input |
| TicketBuckets.BucketMeaning | scripts/ops/dashboard_data.py:79-97 | which statuses go to which tab |
| TicketBuckets.TabMember | scripts/ops/dashboard_data.py:344 | a tab holds exactly the tickets of its statuses |
| TicketBuckets.SeverityLadder | scripts/ops/dashboard_data.py:346-351 | critical before high before medium before low, and all others after them in one rank |
| TicketBuckets.TabOrder | scripts/ops/dashboard_data.py:346-351 | each tab is ordered by severity, newest first within one |
| TicketBuckets.TabKeepsTies | scripts/ops/dashboard_data.py:348-351 | full ties keep input order |
| StableSort.TwoPassSort | scripts/ops/dashboard_data.py:348-351 | for any two orders, sorting by the minor then the major key is the stable lexicographic sort |
| StableSort.SortUnique | scripts/ops/dashboard_data.py:348-351 | order and unchanged tie groups determine the result of a stable sort |
| Migration.GetAll | scripts/ops/migrate_supabase.py:107-126 | paging terminates; it raises exactly if it breaks off, and else collects the specified pages |
| Migration.BreaksIff | scripts/ops/migrate_supabase.py:100-126 | paging breaks off exactly when a page it asks for, all before it full, finds no connection |
| Migration.BackupCompleteIff | scripts/ops/migrate_supabase.py:107-126 | the pages are a prefix of the table, and all of it exactly when no page with rows fails and no cap cuts a page short |
| Migration.PagesLength | scripts/ops/migrate_supabase.py:112-126 | how many rows an incomplete backup holds: the full pages before the failing or short one, and the short one |
| Migration.RestoreTable | scripts/ops/migrate_supabase.py:255-272 | batched upserts write exactly the rows of the batches that succeed; errors counts the others |
| Migration.RestoresAddUp | scripts/ops/migrate_supabase.py:255-272 | restoring twice is one restore in which a batch succeeds if it did in either |
| Migration.RestoreIdempotent | scripts/ops/migrate_supabase.py:261-266 | restoring twice equals restoring once |
| Migration.OthersUntouched | scripts/ops/migrate_supabase.py:255-272 | keys outside the backup are untouched whichever batches fail |
| Migration.RoundTripIff | scripts/ops/migrate_supabase.py:186-280 | restoring a backup into an empty store reproduces the table exactly when the backup was complete and no batch of the restore fails |
| Migration.Backup | scripts/ops/migrate_supabase.py:203-224 | a file for every table before the first that breaks off, errors only for empty results, exit code 0 exactly if none breaks off, whatever was fetched |
| Migration.Restore | scripts/ops/migrate_supabase.py:240-280 | each table with a file restored on its own, the rest untouched, exit 0 exactly if no batch failed |

## Left out

- Floating point: similarities and rates are exact reals, square roots are given by their defining equation, the logarithm is a parameter that is not negative from 1 on; `round(sim, 4)` is left out.
- Tokenizing of titles, the sorted list of module names (modules are given as indices), MD5 and JSON encoding (a hash parameter).
- Timestamps: integers or reals; the string order of `updated_at` is given as ranks; unreadable timestamps are an absent age.
- The rate limiter's exemption of /health, and the never-shrinking table of idle IPs.
- In the cache, results of fetches that finish after their time limit (never read), and the dictionary that callers may change after it is cached.
- In interleaved discovery, failed lookups (they are part of the atomic model) and the creation of a cluster under an id another call chose at the same time. Two posts to the hub at the same moment are not modelled.
- How the similarity search ranks; its answers, like embeddings, are inputs of a call. Team scoping of clusters and tickets.
- BatchResolution.Resolver.TrySibling: takes a write that raises as one that was not stored; a reply lost after the write was stored, which leaves a sibling resolved but not counted, is not modelled.
- In batch resolution, notes left in the metadata of a sibling that then fails its audit.
- Draining.TicketLeavesIff: is stated for patches that give one answer per ticket in all cycles; for changing answers only the whole list is covered, by `Draining.DrainsIffNeverJammed`.
- Cards whose name is neither a string nor null, or whose priority or skills have the wrong type and raise.
- `register_local`, `check_health`, local adapters and discovery through direct URLs; cards pulled in one discovery share one time stamp.
- A breaker restarted with another window size or with a negative one, and a state file of foreign content.
- The metadata written along with a corrective patch, reduced to the attempt count; the update time the table's trigger renews at a patch, as a patched ticket is in no status whose age is read here. What a query knows of update times is an input of it.
- StuckTickets.Orchestrator.AutoFix: covers the stuck-ticket findings only; `fix_work_starvation`, `fix_idle_with_work` and issue closing start processes and change no ticket row here.
- The work distributor's path of the assignment, the detectors that build the other findings, reports and action logs.
- HTTP plumbing, authentication, static pages, configuration editing, credential scanning, log formatting and the remaining scripts: they would only add easy members.
- Paging without an `order` parameter: the server is taken to serve every page from one fixed order of the rows, though it does not promise one.
- A connection that fails during a restore, which ends it there: for the tables' rows that is the same as all later batches failing.
- The manifest file of a backup, the SQL migrations and the verification command of the migration script.
