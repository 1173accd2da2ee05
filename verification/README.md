# A verified model of the gateway's stateful and arithmetic core

The project models, in Dafny, the parts of this LiteLLM fork that keep state over many calls or
do arithmetic that must add up, and proves what they keep over every run and every input.

| file | what it models |
|---|---|
| `Heapq.dfy` | Python's tuple order and the list algorithms behind `heappush` and `heappop` |
| `MixedHeap.dfy` | the same algorithms where tuples meet the lists they are decoded as, and comparing them raises |
| `WaitingQueue.dfy` | one model's queue as a plain list: order, accounting, starvation |
| `DualCache.dfy` | the two-layer cache: bounded memory that hands out its own list until a deadline, and Redis that forgets |
| `Scheduler.dfy` | the priority scheduler over that cache |
| `AddRace.dfy` | overlapping requests that find no queue in memory and wait for Redis |
| `InMemoryCache.dfy` | the in-memory store: deadlines, the size bound, eviction by a heap of deadlines |
| `CacheRuns.dfy` | what that store keeps over every run: residence, isolation, the length of its heap |
| `CacheKey.dfy` | the text of a cache key, when it can be decoded, and namespaces |
| `ResponseCache.dfy` | reads, writes and the embedding bulk write over that store |
| `FanOut.dfy` | merging arguments into deployments, and the race for the first response |
| `BatchResults.dfy` | collecting results in submission order and in completion order |
| `BudgetManager.dfy` | the ledger of costs per user, and its timed resets |
| `LruWrapper.dfy` | the memoising wrapper that also remembers exceptions |
| `ImageSize.dfy` | image sizes as text, and the price of an image |
| `UsageTotals.dfy` | combining usage objects attribute by attribute |
| `BatchCost.dfy` | the cost and usage of a batch job |
| `Options.dfy`, `Sequences.dfy` | Python's `Optional`, and facts about sequences |

Objects that the source updates in place are classes here (`Scheduler.Scheduler`, `DualCache.DualCache` and the
lists they share, `InMemoryCache.InMemoryCache`, `ResponseCache.Cache` and the shared
`litellm_params` dictionary, `FanOut.Dict`, `BudgetManager.BudgetManager`, `LruWrapper.Wrapper`).
Each method is tied to a function on values, and the theorems over runs are about those functions.
Money, time and priorities are `real`: IEEE rounding is not modelled. Clocks, SHA-256, `str` of
numbers and lists, prices, the store's size check, worker schedules and completion orders are
parameters, so every theorem holds for all of them.

## What the code does that its documentation does not say

Where the two disagree the model follows the code.

- `evict_cache` promises that an item without a time to live of its own stays for the default one (src/caching/in_memory_cache.py:110). Nothing exempts the size bound, so no item is safe for any time (`CacheRuns.NoItemIsSafe`). The second promise (line 111) does exempt it, and holds for a write exactly when the key had no pending sooner deadline (`CacheRuns.ResidencePromise`). What a run leaves of an item is `CacheRuns.ReadFindsItem`.
- The third promise, a bounded size (line 112), does not cover the heap of deadlines: `CacheRuns.HeapIsBoundedIff` says when it holds, `InMemoryCache.StaleEntriesAccumulate` that it fails without limit.
- The scheduler's comment that queues stay in memory for five seconds when Redis is there (src/scheduler.py:13-15) has no effect: the asynchronous save passes no time to live (src/caching/dual_cache.py:298-302), so memory keeps a queue for 600 seconds and Redis, by default, for 60 (src/caching/base_cache.py:23-36). A later save does not extend memory's deadline. When that passes, a queue in steady use is lost (`Scheduler.BusyQueueIsDropped`); with Redis, a queue saved within the last 60 seconds comes back as lists that no tuple can be pushed onto (`Scheduler.AddAfterDeadline`).
- `poll` does not save the queue it popped from, so an admitted request is back after memory drops the queue while Redis still has its copy (`Scheduler.AdmittedEntryReappearsIff`, `Scheduler.ReadmittedWhileKept`).
- The models' queues share memory's room: a save that finds it full evicts other models' queues, or its own first (`Scheduler.StepAt`).
- A request whose polling ends, by timeout or because a deployment became healthy, is never taken out of its queue, and it blocks the entries behind it (`WaitingQueue.AdmissionsAreThePollingPrefix`, `WaitingQueue.AbandonedHeadBlocks`).
- Requests that find no queue in memory at the same time overwrite one another's, and undo one another's polls (`AddRace.NothingLostIff`, `AddRace.Conservation`).
- The key text is ambiguous: `logprobs` is a suffix of `top_logprobs` (`CacheKey.ChatParametersCollide`), and a value may mention a name (`CacheKey.MentionsCollide`). `CacheKey.OneCanonicalReading` says exactly which requests it determines, for any names.
- Namespaces separate keys but share the store's room: a write in one can evict an item of another (`ResponseCache.NamespacesInterfereIff`).
- With a shared `litellm_params` dictionary the bulk write of embeddings stores every result under the first input's key (`ResponseCache.PipelineKeysAreOwnKeys`, `ResponseCache.SharedKeyAnswersLast`).
- The synchronous and the asynchronous read understand the age limit differently (`ResponseCache.ReadsAgreeOnAge`).
- The merge loop fills the caller's deployment dictionaries, and lets arguments of earlier deployments flow into later ones (`FanOut.SubmittedClosedForm`, `FanOut.FilledClosedForm`).
- The token-list branch returns results in completion order (`BatchResults.SlotsMatchOnlyInOrder`).
- Combining usage objects drops completion details that the details class declares as None (`UsageTotals.CompletionDetailsAreLost`).
- `create_budget` with an unknown duration raises after it has already replaced the user's entry (`BudgetManager.BudgetManager.CreateBudget`).

## Model

| member | source | states |
|---|---|---|
| Heapq.LtTotal | src/scheduler.py:48 | `(priority, request_id)` tuples, strings included, are totally ordered: exactly one of less, greater, equal |
| Heapq.StrLtIsLexicographic | src/scheduler.py:48 | ties on the number are broken as Python orders strings: a proper prefix is less, and otherwise the first differing character decides |
| Heapq.PushKeepsHeap | src/scheduler.py:48 | heappush, by its sift towards the root, keeps the list a binary min-heap |
| Heapq.PopKeepsHeap | src/scheduler.py:79 | heappop, by its sift to a leaf and back, keeps the list a binary min-heap |
| Heapq.HeadIsLeast | src/scheduler.py:76-79 | `queue[0]` is the least entry of the whole queue |
| Heapq.DrainIsPermutation | src/scheduler.py:72-85 | popping until the list is empty returns every entry once |
| Heapq.DrainIsSorted | src/scheduler.py:72-85 | and returns them in sorted order |
| Heapq.SortedUnique | src/scheduler.py:72-85 | a sorted list is determined by its entries, so "the sorted queue" is one list |
| WaitingQueue.NextQueueKeepsHeap | src/scheduler.py:43-101 | every step keeps a queue a min-heap |
| WaitingQueue.RunKeepsHeap | src/scheduler.py:43-127 | in every state that any run of adds, polls, peeks and losses can reach, the queue is a min-heap |
| WaitingQueue.PollAdmitsExactlyTheLeast | src/scheduler.py:72-85 | with no healthy deployment a poll succeeds exactly for the request of the least waiting entry, wherever in the list that is |
| WaitingQueue.LeastRequestIsAdmitted | src/scheduler.py:43-85 | after any adds of requests, a poll with no healthy deployment is true for an id if and only if it is that of a request before which none comes, comparing the requests' own priority numbers with `<` and then their ids |
| WaitingQueue.SmallerNumberGoesFirst | src/scheduler.py:44-48 | lower values indicate higher priority: after any run, while a request waits that has not polled since it was added, no request with a larger priority number is admitted by dequeuing |
| WaitingQueue.HealthyPollsKeepTheQueue | src/scheduler.py:65-101 | a poll with a healthy deployment lets any request of a nonempty queue go and takes none off; a peek takes none off; an empty queue makes both raise |
| WaitingQueue.Conservation | src/scheduler.py:43-85 | over any run, queue + admitted from the head + lost = initial + added, as multisets; healthy admissions remove nothing |
| WaitingQueue.AdmissionsNeverExceedAdds | src/scheduler.py:65-85 | over any run from an empty queue, the admissions are a sub-multiset of the adds: no request is dequeued more often than it was added |
| WaitingQueue.AdmissionsFollowTheDrain | src/scheduler.py:72-85 | while no request joins, what was admitted followed by the drain of what is left is the drain of the initial queue |
| WaitingQueue.AdmissionsAreSorted | src/scheduler.py:72-85 | while no request joins, the admissions of any run followed by the drain of what is left are the sorted queue |
| WaitingQueue.RoundDequeues | src/scheduler.py:72-85 | a run in which the head's request polls, at any point and among any other polls, shortens the queue |
| WaitingQueue.AdmissionsAreThePollingPrefix | src/router.py:1946-1984 | when a set of requests keeps polling, each only while it waits, after as many rounds as requests wait the admissions are exactly the longest prefix of the sorted queue inside that set |
| WaitingQueue.QueueDrainsIff | src/router.py:1946-1984 | under such polling the queue drains if and only if all its requests are in the set |
| WaitingQueue.AbandonedEntryStays | src/router.py:1946-1984 | with requests joining: an entry whose request no longer polls stays queued over any run, and only entries ordered before it are admitted |
| WaitingQueue.AbandonedHeadBlocks | src/router.py:1946-1984 | if it is the least and nothing ordered before it arrives, nothing is admitted from that queue again |
| MixedHeap.UniformPush | src/scheduler.py:48 | on a list of tuples only, or decoded lists only, pushing the same kind is heappush and never raises |
| MixedHeap.UniformPop | src/scheduler.py:79 | on such a list, popping is heappop and never raises |
| MixedHeap.PushKeepsItems | src/scheduler.py:48 | even a push that raises halfway leaves its item in the list and loses no other |
| MixedHeap.PopKeepsItems | src/scheduler.py:79 | even a pop that raises halfway has taken exactly the head off the list |
| MixedHeap.PushRaisesIff | src/caching/redis_cache.py:719-731 | pushing a tuple onto a list of one kind raises a TypeError if and only if the list holds decoded entries; the tuple then stays at its end |
| MixedHeap.PopAfterFailedPushRaisesIff | src/scheduler.py:72-81 | after such a push the next pop raises too if and only if more than one decoded entry waits |
| DualCache.DualCache.AsyncGetCache | src/caching/dual_cache.py:188-219 | memory's own list object, unchanged, up to its deadline; else what Redis has not yet forgotten, decoded into a new list with a deadline of its own, which evicts others if memory is full; else nothing; Redis is left alone; and the whole cache afterwards |
| DualCache.DualCache.AsyncSetCache | src/caching/dual_cache.py:293-302 | the list is stored; full memory evicts first, possibly this very key; a deadline that has not passed is kept, else it is now plus the time to live; other keys stay if and only if they survive; Redis gets a copy with its own time to live; and the whole cache afterwards |
| DualCache.ExpiryIsTheStores | src/caching/in_memory_cache.py:197-218 | a read drops from the memory layer what the in-memory store's read step drops |
| DualCache.MemoryLayerIsTheStore | src/caching/in_memory_cache.py:156-174 | a save, and installing what Redis had, is a write step of the in-memory store, eviction and deadline included |
| Scheduler.Scheduler.GetQueue | src/scheduler.py:107-118 | hands out memory's own list, the list freshly decoded into memory, or a new empty list, and leaves the cache as the read does |
| Scheduler.Scheduler.SaveQueue | src/scheduler.py:120-127 | leaves the whole cache as the save does, evictions by size included |
| Scheduler.Scheduler.AddRequest | src/scheduler.py:43-51 | for every state of the cache: the whole new state, other queues included, and the outcome: the request's tuple is pushed and saved, or, onto decoded entries, left in memory by the TypeError with nothing saved |
| Scheduler.Scheduler.PollQueue | src/scheduler.py:53-85 | for every state of the cache the whole new state, Redis unwritten; and the answer: an exception for an empty queue; true with a healthy deployment; else whether the id is the head's, which is then popped, or a TypeError of that pop |
| Scheduler.Scheduler.PeekQueue | src/scheduler.py:87-101 | answers whether the id is the head's, or raises for an empty queue, and changes nothing but what a read installs |
| Scheduler.StepAt | src/caching/in_memory_cache.py:156-174 | a step on one queue is the per-queue step, and it touches another queue if and only if it finds memory full and evicts that queue there |
| Scheduler.OutcomeAt | src/scheduler.py:43-101 | what the methods answer is the outcome of the per-queue step |
| Scheduler.RunsAreLocal | src/scheduler.py:107-127 | over any interleaving of steps on any models a queue develops by its own steps and the drops that full memory inflicts on it, and by nothing else |
| Scheduler.RoomyRunsAreSeparate | src/scheduler.py:107-127 | as long as memory has room there are no such drops: each queue develops as if the others did not exist |
| Scheduler.TypeErrorIff | src/scheduler.py:43-85 | as long as both layers are heaps of one kind, a step raises a TypeError if and only if it is an add that finds a nonempty queue that came back from Redis |
| Scheduler.StepKeepsGood | src/scheduler.py:43-101 | every other step, whatever others write to Redis, leaves both layers heaps of one kind |
| Scheduler.RunKeepsHeaps | src/scheduler.py:43-127 | in every reachable state up to the first such add, the queue in memory and in Redis is a binary min-heap |
| Scheduler.StepIsLive | src/scheduler.py:43-101 | a step that reloads nothing is a step on a plain list: same queue, same answer, no TypeError |
| Scheduler.RunIsLive | src/scheduler.py:43-127 | every run without a reload is a run on the plain list, with expiry and eviction as losses, so all that is proved of the waiting queue holds for it |
| Scheduler.LeastRequestIsAdmitted | src/scheduler.py:43-85 | through both layers of the cache: after requests were added to a queue that neither layer had, and while memory keeps it, a poll with no healthy deployment is true for an id if and only if it is that of a request that is first by priority number and then by id |
| Scheduler.MemoryNeverReloads | src/caching/dual_cache.py:206-214 | without Redis, which is the default, no run reloads |
| Scheduler.DeadlineStays | src/caching/in_memory_cache.py:144-154 | however often a queue is saved, polled and peeked at before its deadline, that deadline stays the one of its first save, unless a save finds memory full and evicts the queue itself |
| Scheduler.BusyQueueIsDropped | src/scheduler.py:65-67 | so without Redis, after that deadline the next poll of any waiting request raises, and the queue is empty |
| Scheduler.AddAfterDeadline | src/scheduler.py:43-51 | with Redis, an add after memory dropped the queue raises a TypeError if and only if the last add before, or another process, put entries into Redis within their time to live; otherwise it starts a new queue and what waited is lost |
| Scheduler.AdmittedEntryReappearsIff | src/scheduler.py:77-81 | an entry admitted by dequeuing is back when memory has dropped the queue, if and only if Redis still holds it, by the times of the adds and whatever others did to Redis since |
| Scheduler.ReturnsAlone | src/caching/base_cache.py:23-36 | without others: if and only if no add came since, and Redis's time to live for the last save before the admission has not passed |
| Scheduler.ReadmittedWhileKept | src/scheduler.py:77-81 | over any number of rounds of a poll of the head and a drop by memory, a poll is answered with true exactly as long as Redis keeps its copy, which no poll renews; after that it raises |
| Scheduler.AdmittedOncePerCopy | src/scheduler.py:65-85 | over every run, whatever memory drops and others do to Redis, an entry is admitted at most once per copy that waited in memory, was added, or was loaded from Redis |
| AddRace.Conservation | src/caching/dual_cache.py:206-219 | adds and polls whose reads of Redis are suspended, over every interleaving and whatever lists Redis answers with: waiting + taken + overwritten = initial + added + brought by late answers, pushes and pops that raise included |
| AddRace.PollIsWaitingQueues | src/scheduler.py:72-85 | a poll in a race does to the list what it does to a waiting queue, and changes it if and only if its id is the head's |
| AddRace.NoRaceInMemory | src/caching/dual_cache.py:196-206 | once memory has the list nothing races: any run of requests from any tasks leaves the list that the waiting queue is after the same steps |
| AddRace.TakenAtMost | src/caching/dual_cache.py:206-219 | so an entry is taken at most once per copy that waited, was added, or came in a late answer |
| AddRace.NothingLostIff | src/caching/dual_cache.py:206-219 | at every moment every added entry is waiting or taken, and once each, if and only if every late answer puts a list into memory that has the entries of the one it replaces |
| AddRace.LastFinisherWins | src/scheduler.py:43-51 | of any number of adds that found no queue only the last one to finish is left waiting |
| AddRace.RacesKeepHeaps | src/scheduler.py:43-51 | whatever is lost, as long as Redis has no list to answer with the queue stays a heap of tuples |
| InMemoryCache.SurvivorsUnique | src/caching/in_memory_cache.py:102-137 | the deadlines, the clock and the bound alone decide which keys survive an eviction |
| InMemoryCache.SurvivorSurvives | src/caching/in_memory_cache.py:102-137 | the condition before the eviction: a key survives if and only if it is not due and fewer than bound - 1 unexpired keys are due after it |
| InMemoryCache.RewritesDoNotExtend | src/caching/in_memory_cache.py:144-154 | any number of rewrites before the deadline leave the deadline of the first write |
| InMemoryCache.InMemoryCache.PurgeExpired | src/caching/in_memory_cache.py:114-127 | removes exactly the keys whose deadline has passed, whatever stale entries the heap holds, and adds no stale entry |
| InMemoryCache.InMemoryCache.EvictTop | src/caching/in_memory_cache.py:129-137 | a round removes nothing, or one key due before every key that stays |
| InMemoryCache.InMemoryCache.Shrink | src/caching/in_memory_cache.py:129-137 | fewer than the bound remain, no more removed than needed, and every removed key was due before every kept one |
| InMemoryCache.InMemoryCache.EvictCache | src/caching/in_memory_cache.py:102-137 | what is left is the unique set of survivors: nothing expired, below the bound, earliest deadlines evicted first, none evicted needlessly |
| InMemoryCache.InMemoryCache.StampDeadline | src/caching/in_memory_cache.py:167-174 | keeps a deadline that has not passed, else sets a new one and its heap entry; every cached key stays in the heap |
| InMemoryCache.InMemoryCache.SetCache | src/caching/in_memory_cache.py:156-174 | store unless the size check refuses; keep a deadline that has not passed, else stamp the clock plus the write's or the default time to live; a full store keeps of the other keys exactly those that survive, a store with room all of them; and a step of the store's state machine, with the three readings of the clock apart |
| InMemoryCache.InMemoryCache.GetCache | src/caching/in_memory_cache.py:208-218 | the value up to its deadline; else None, and the key is gone; a step of the state machine |
| InMemoryCache.InMemoryCache.DeleteCache | src/caching/in_memory_cache.py:270-271 | exactly this key goes, its heap entry stays; a step of the state machine |
| InMemoryCache.InMemoryCache.FlushCache | src/caching/in_memory_cache.py:262-265 | dictionaries and heap are emptied; a step of the state machine |
| InMemoryCache.StaleEntriesAccumulate | src/caching/in_memory_cache.py:95-100 | the heap has no bound at all: for every number there is a run of the object that leaves that many heap entries with at most one key cached |
| CacheRuns.StepKeepsItem | src/caching/in_memory_cache.py:102-218 | an operation that does not rewrite an item removes it if and only if it deletes it, reads it late, or evicts it by size; else value and deadline stay |
| CacheRuns.ReadFindsItem | src/caching/in_memory_cache.py:109-113 | over every run after a write: a read returns the item if and only if it is not past the kept deadline, nothing deleted the item or read it late, and no full-cache write found too many keys due later |
| CacheRuns.ResidencePromise | src/caching/in_memory_cache.py:111 | the promise that an item stays for its time to live unless cache size requires eviction, over all runs after the write, holds if and only if the write did not find and spare a pending sooner deadline |
| CacheRuns.NoItemIsSafe | src/caching/in_memory_cache.py:110 | the promise without that exemption never holds: from every store and at every time up to the item's deadline, at most as many writes of other keys as the bound evict it |
| CacheRuns.SurvivorsExist | src/caching/in_memory_cache.py:129-137 | for all deadlines there are survivors: the eviction policy can always be met |
| CacheRuns.InterferesIff | src/caching/in_memory_cache.py:156-174 | an operation on another key changes what a read finds if and only if it is a full-cache write that evicts what the read would have found |
| CacheRuns.HistoryDecides | src/caching/in_memory_cache.py:156-218 | over every history what a read finds is decided by the operations on its key and the writes that evicted it, and is the value of the last accepted write |
| CacheRuns.OthersDoNotInterfere | src/caching/in_memory_cache.py:156-218 | over every run in which no write finds the store full, reads of one party's keys find what they would find had only that party used the store |
| CacheRuns.StepLeavesStale | src/caching/in_memory_cache.py:95-218 | an operation leaves one more stale heap entry if and only if it deletes a cached key, reads one late, or gives one a new deadline after its own has passed |
| CacheRuns.HeapGrowsByAbandonment | src/caching/in_memory_cache.py:112 | over every run the heap is longer than the cached keys by at most, and without full-cache writes and flushes exactly, the number of such operations |
| CacheRuns.HeapIsBoundedIff | src/caching/in_memory_cache.py:112 | the heap stays within the number of cached keys throughout a run if and only if the run has no such operation |
| CacheKey.BuildKeyText | src/caching/caching.py:280-296 | the loop's text is the concatenation, in order, of `name: value` for the parameters that have a value and are API parameters or, if provider-specific parameters count, in neither list |
| CacheKey.ParameterText | src/caching/caching.py:280-296 | what each parameter contributes, wherever it stands: an API parameter its name and value, one in neither list the same if and only if provider-specific parameters count, this library's own parameters and None nothing |
| CacheKey.ParameterReachesText | src/caching/caching.py:280-296 | changing one parameter's value changes the text for every API parameter, for one in neither list if and only if provider-specific parameters count, and never for one of this library alone |
| CacheKey.ModelPartPrecedence | src/caching/caching.py:318-341 | the model part, source by source: the first caching group with the model group, else the model group, the metadata's before that of the parameters, else the model |
| CacheKey.CachingGroupIsShared | src/caching/caching.py:318-341 | two models whose first caching group is the same get the same model part of their keys, whichever of the two metadata paths names them |
| CacheKey.DecodeUnique | src/caching/caching.py:280-302 | for all parameter names, suffixes of one another included: two canonical requests with equal texts are equal |
| CacheKey.OneCanonicalReading | src/caching/caching.py:280-302 | for every request over any names, whatever its values: its text has exactly one canonical reading, and the request is that reading if and only if none of its values mentions a name it has not used by then, and none ends in what makes the next name a longer unused one |
| CacheKey.SuffixesCollide | src/caching/caching.py:280-302 | a name that is a suffix of another collides with it, for any values and any parameters around them |
| CacheKey.MentionsCollide | src/caching/caching.py:280-302 | a value that mentions another name collides with the request that has that parameter, for any parameters around them |
| CacheKey.DecodableIffNoCollision | src/caching/caching.py:280-302 | not mentioning names is enough for all requests over a set of names if and only if no name is a suffix of another while a third exists |
| CacheKey.ChatParametersCollide | src/constants.py:436-437 | the chat parameter names do contain such a pair, with two chat requests of equal text for every model and value |
| CacheKey.OneValueDecodes | src/caching/caching.py:280-302 | two requests that differ in one value only have different texts, whatever the values hold |
| CacheKey.NamespacedKeysDiffer | src/caching/caching.py:402-422 | with digests of one length, two final keys are equal if and only if namespace and digest are |
| CacheKey.FinalKeyIsExact | src/caching/caching.py:262-302 | for all names and values: final keys are equal if and only if namespaces and canonical readings are, when the hash separates the two texts |
| ResponseCache.GetCacheKey | src/caching/caching.py:262-302 | the memoised key if the shared dictionary holds one; else namespace and digest of the parameters' text; and that is memoised if there is a dictionary |
| ResponseCache.FreshKeyText | src/caching/caching.py:402-422 | a computed key is the digest of the parameters' text behind the request's own namespace, else its metadata's, else the cache's; bare if there is none |
| ResponseCache.GetCallKey | src/caching/caching.py:493-496 | a read or write uses the given key first, then the memoised one, then the computed one, and using it again gives the same key |
| ResponseCache.ReadsAgreeOnAge | src/caching/caching.py:498-533 | the exact condition under which both reads apply the same age limit |
| ResponseCache.AgeLimits | src/caching/caching.py:498-533 | the limit each read applies for every combination of the two spellings: the synchronous read prefers `s-maxage`, the asynchronous one `s-max-age`, an explicit None of which hides the other |
| ResponseCache.NamespacesAreIsolated | src/caching/caching.py:402-422 | over every history in which no write finds the store full, a read in a namespace finds what it would find had only that namespace's operations been done |
| ResponseCache.ReadsAreOwnWrites | src/caching/caching.py:402-422 | over every history, full store or not, a read finds nothing or the last accepted write under its key, and a key of one namespace is in no other |
| ResponseCache.NamespacesInterfereIff | src/caching/caching.py:402-422 | one operation in another namespace changes what a read finds if and only if it is a write that finds the store full and evicts it |
| ResponseCache.NamespacesSeparateRequests | src/caching/caching.py:402-422 | two requests, to one cache or two, share a key if and only if their namespaces are equal, taken from the request's own, its metadata's or the cache's in this order, and their digests are |
| ResponseCache.IgnoredParam | src/caching/caching.py:655-667 | the bookkeeping arguments that the bulk write adds do not change any input's key text |
| ResponseCache.ParametersHaveTheirOwnKeys | src/caching/caching.py:280-302 | setting one parameter to two values gives the same key if and only if the values are equal: for every API parameter, and for every one in neither list when provider-specific parameters count |
| ResponseCache.InputsHaveTheirOwnKeys | src/caching/caching.py:646-655 | single-input requests have equal keys if and only if their inputs are equal |
| ResponseCache.PipelineKeysAreOwnKeys | src/caching/caching.py:646-705 | a bulk write stores each result under its own input's key if and only if there is no shared dictionary or all inputs are equal |
| ResponseCache.SharedKeyAnswersLast | src/caching/caching.py:669-705 | after a bulk write under a shared key, over any history before and after, a read of any input finds the result of the last input that the store accepted, within the deadline and unless dropped |
| ResponseCache.Cache.Write | src/caching/in_memory_cache.py:156-174 | hands one entry to the store, as one more operation of the history that the store's state is proved to follow |
| ResponseCache.Cache.AddCache | src/caching/caching.py:543-590 | adds one write of the stamped result under the call's key to the history, with the time to live of the cache controls (None there leaves it to the store), else the cache's, else the call's; nothing at all if caching is off and not asked for |
| ResponseCache.Cache.GetCache | src/caching/caching.py:439-541 | answers from the whole history of adds and gets: the response of the latest write under its key unless dropped, late or too old, else None; neither reads nor drops anything if caching is off and not asked for |
| ResponseCache.Cache.AddEmbeddingResponse | src/caching/caching.py:646-667 | the entry for one input, or an error if there is no such result; what it leaves in the arguments changes no later input's own key |
| ResponseCache.Cache.PairResults | src/caching/caching.py:685-694 | one entry per input, in order: entry i holds result i, stamped, under input i's own key, or with a shared dictionary all under one key; nothing at all if a result is missing |
| ResponseCache.Cache.WriteAll | src/caching/in_memory_cache.py:179-184 | adds every entry in order, each with the given time to live, to the history |
| ResponseCache.Cache.AddCachePipeline | src/caching/caching.py:669-705 | the bulk write as a whole: result i is written i-th, with the time to live a single write would get; nothing if caching is off or a result is missing; and with a shared dictionary every later request on it, for any input, uses the first input's key |
| ResponseCache.ReadBack | src/caching/caching.py:478-590 | for any history before and after a write: a later read finds it if and only if it is within the deadline the write left and nothing dropped it in between |
| FanOut.FillMissing | src/batch_completion/main.py:169-173 | gives a dictionary exactly the arguments it lacks and overrides none |
| FanOut.MergeDeployments | src/batch_completion/main.py:161-175 | submitted arguments and final dictionaries of the loop, even if a dictionary is listed twice |
| FanOut.SubmittedClosedForm | src/batch_completion/main.py:161-175 | deployment i gets the nested value, else its own, else that of the latest earlier deployment that had the key, else the base value |
| FanOut.SubmittedValues | src/batch_completion/main.py:161-175 | the same argument by argument: a nested value goes to every deployment; else the deployment's own; else that of the latest earlier one that had the key; else the base value, and no other key is submitted |
| FanOut.FilledClosedForm | src/batch_completion/main.py:161-175 | what the caller's dictionaries hold afterwards: own values stay, missing ones are taken in from what was submitted before |
| FanOut.FilledValues | src/batch_completion/main.py:169-175 | a caller's dictionary keeps its own values, and takes in for a missing key what was submitted before it, the first one the base value |
| FanOut.TrackedIsLastSubmission | src/batch_completion/main.py:166-175 | the tracked futures are exactly the last submission of every distinct model name |
| FanOut.VisitRound | src/batch_completion/main.py:185-199 | returns the round's first success; every future dropped has failed; without a success exactly the round's futures are dropped |
| FanOut.Race | src/batch_completion/main.py:177-204 | for every schedule the result is the first success of the first round that has one, and None if and only if every tracked future failed |
| FanOut.WinnerIsEarliest | src/batch_completion/main.py:177-204 | the winner completed in the earliest wait round with a success: everything in earlier rounds failed |
| BatchResults.FlattenChunks | src/batch_completion/main.py:95-98 | flattening the chunks gives the list back, for every list and chunk size |
| BatchResults.SubmitInChunks | src/batch_completion/main.py:100-112 | the i-th future runs the i-th message list |
| BatchResults.BatchCompletion | src/batch_completion/main.py:95-124 | for every worker schedule one outcome per message list, slot i holding request i's result or exception |
| BatchResults.CollectAsCompleted | src/main.py:5228-5259 | raises if and only if some call failed; otherwise slot i holds the result of the i-th future to complete, for every i |
| BatchResults.AsCompletedIsPermutation | src/main.py:5250-5257 | slots filled in completion order hold, as a multiset, exactly the results of prompts 0 to n - 1 |
| BatchResults.SlotsMatchOnlyInOrder | src/main.py:5250-5257 | with different results, slot i holds prompt i's result for every i if and only if the i-th future to complete is future i for every i |
| BudgetManager.BudgetManager.CreateBudget | src/budget_manager.py:72-102 | replaces the user's entry and no other by one without costs; daily, weekly, monthly and yearly are 1, 7, 28 and 365 days from the creation time; an unknown duration raises with the entry already replaced |
| BudgetManager.BudgetManager.UpdateCost | src/budget_manager.py:117-160 | the charge taken from text or completion is added to the user's cost and to the one model's share; the errors change nothing, and no other user changes |
| BudgetManager.BudgetManager.ResetCost | src/budget_manager.py:174-177 | clears cost and breakdown of one user and nothing else, or raises for an unknown user |
| BudgetManager.BudgetManager.ResetOnDuration | src/budget_manager.py:179-192 | clears the costs and stamps the clock if and only if the time since the last update is at least `days * 86400` seconds, else changes nothing; raises for users without a period |
| BudgetManager.BudgetManager.UpdateBudgetAllUsers | src/budget_manager.py:194-197 | in whatever order users are visited, each user whose last update is `days * 86400` seconds ago or more, by the clock read for that user, is cleared and stamped, and no other entry changes |
| BudgetManager.LedgerIsAccounts | src/budget_manager.py:72-197 | over every run the ledger is one independent account per user: other users' operations leave an entry as it is |
| BudgetManager.CostsAddUp | src/budget_manager.py:151-177 | over every run and for every user, current cost = sum of the breakdown = charges since the last create or reset, and each model's share is that model's charges |
| BudgetManager.ResetsAreSpaced | src/budget_manager.py:179-192 | after k timed resets the last update is at least k periods after creation, whatever the clock does |
| BudgetManager.ResetsAreBounded | src/budget_manager.py:179-192 | by any time no more timed resets than whole periods since creation |
| BudgetManager.NothingIsOverdue | src/budget_manager.py:194-197 | over every run, after updating all users everybody's last update is less than `days * 86400` seconds ago, by the clock value read for that user |
| LruWrapper.Wrapper.Call | src/caching/_internal_lru_cache.py:7-30 | for every history and capacity, returns, raises or lets escape exactly what a direct call would |
| LruWrapper.StepIsFaithful | src/caching/_internal_lru_cache.py:14-21 | a call keeps every stored tag what the function would answer |
| LruWrapper.TableIsMostRecent | src/caching/_internal_lru_cache.py:14-28 | the table holds exactly the most recently used distinct keys, ordered by the position of their last call |
| LruWrapper.TableIsBounded | src/caching/_internal_lru_cache.py:14-28 | it never holds more than `maxsize` entries |
| LruWrapper.EvaluatedOnce | src/caching/_internal_lru_cache.py:14-28 | while the distinct keys fit, the function is run exactly once per key asked for |
| ImageSize.ParsePrinted | src/cost_calculator.py:1482 | `int(str(n)) == n` for every integer |
| ImageSize.BothSpellingsNormalise | src/cost_calculator.py:1475-1481 | `hxw` and `h-x-w` normalise to the same text for all integers |
| ImageSize.NormaliseIsIdempotent | src/cost_calculator.py:1475-1481 | normalising twice is normalising once, for every text |
| ImageSize.SizeRoundTrip | src/cost_calculator.py:1475-1482 | parsing either spelling gives back exactly both dimensions |
| ImageSize.SizeParsesIff | src/cost_calculator.py:1475-1482 | a text parses as these dimensions if and only if, normalised, it is a numeral for each with the separator between them |
| ImageSize.MissingSize | src/cost_calculator.py:1475 | a missing size is 1024 by 1024 |
| ImageSize.SpellingDoesNotMatter | src/cost_calculator.py:1475-1524 | both spellings find the same price, which is applied to the true dimensions, or fail alike |
| ImageSize.PlainNames | src/cost_calculator.py:1485-1515 | the names tried for a model not listed under its provider, in order: with the quality, base, with `medium`, both again for the model's last part, the model; without a quality the base name takes its place |
| ImageSize.ProviderNames | src/cost_calculator.py:1485-1515 | the names tried for a model listed under its provider, in order, the model without the provider last |
| ImageSize.BareName | src/cost_calculator.py:1488-1489 | a model under its provider loses that prefix, and every further mention of it |
| ImageSize.CostIsFirstListed | src/cost_calculator.py:1516-1524 | in either spelling or with the size missing, the cost is the pixel price of the first listed name times height, width and number of images; the model is unknown if and only if no name is listed |
| ImageSize.BadSizeIff | src/cost_calculator.py:1482 | the size is refused if and only if it cannot be read as two numerals around the separator |
| UsageTotals.AddAttributes | src/cost_calculator.py:1661-1720 | adding one object's attributes does not depend on the order in which they are visited |
| UsageTotals.CombineUsageObjects | src/cost_calculator.py:1647-1722 | the loops compute the fold whose totals are stated below |
| UsageTotals.OnePlainIsItself | src/cost_calculator.py:1661-1672 | one usage combined alone keeps its plain numbers, and what is not a number has no effect |
| UsageTotals.OnePromptIsItself | src/cost_calculator.py:1673-1696 | and its prompt details, None as 0 |
| UsageTotals.OneCompletionIsItself | src/cost_calculator.py:1698-1720 | and its completion details, added to a declared number; what is not a number leaves the declaration as it is |
| UsageTotals.Combine1Commutes | src/cost_calculator.py:1660-1720 | two usages may be combined in either order, missing, None and non-numeric attributes included |
| UsageTotals.CombineIgnoresOrder | src/cost_calculator.py:1647-1722 | the result is the same for any two lists with the same usages |
| UsageTotals.GroupsAreIndependent | src/cost_calculator.py:1661-1720 | plain attributes, prompt details and completion details are combined independently; details exist if and only if some usage has them, or the start did |
| UsageTotals.ColumnIsSummed | src/cost_calculator.py:1661-1720 | an attribute that starts numeric or missing, and any prompt detail, ends as start plus total once some usage carries it |
| UsageTotals.NoneStaysNone | src/cost_calculator.py:1698-1720 | a completion detail that starts as None stays None whatever is reported |
| UsageTotals.PlainIsTheTotal | src/cost_calculator.py:1661-1672 | every plain attribute of the result is the total over the list |
| UsageTotals.PromptIsTheTotal | src/cost_calculator.py:1673-1696 | every prompt detail of the result is the total over the list, None counted as 0 |
| UsageTotals.CompletionDetailsAreLost | src/cost_calculator.py:1698-1720 | a completion detail declared as None comes out as None whatever is reported; one declared as a number comes out as that number plus the total |
| UsageTotals.CombineJoined | src/cost_calculator.py:1647-1722 | combining two lists joined gives the sums of what they give alone |
| BatchCost.GetCost | src/batches/batch_utils.py:236-263 | raises if and only if some status-200 line names no model; for one model the total is (1 - discount) * (prompt tokens * input rate + completion tokens * output rate) over exactly the status-200 lines, a rate being the batch price or half the general one, and 0 without model info |
| BatchCost.GetUsage | src/batches/batch_utils.py:266-298 | each number is the sum over the usage of exactly the lines with status 200 |
| BatchCost.PriceIsBill | src/cost_calculator.py:658-688 | for every model, provider and usage the price, written out: batch rates or half the general ones, times tokens, less the provider's discount; 0 without model info |
| BatchCost.BatchPricingIsAdditive | src/cost_calculator.py:1595-1643 | discounted batch pricing is additive in the usage |
| BatchCost.CostSplits | src/batches/batch_utils.py:236-263 | one model's lines cost what their summed usage costs, and the rest costs what it would alone |
| BatchCost.CostIsByModel | src/batches/batch_utils.py:236-263 | for every batch, summing discounted line costs equals pricing and discounting each model's summed usage once |
| BatchCost.OneModelBatch | src/batches/batch_utils.py:236-298 | a batch of one model costs what its total usage costs, over the same status-200 filter |
| BatchCost.RaisesWithoutModel | src/cost_calculator.py:941-944 | the cost raises if and only if some successful line names no model |
| BatchCost.UsagesAdd | src/batches/batch_utils.py:266-298 | usages distribute over joined files |
| BatchCost.CostsAdd | src/batches/batch_utils.py:236-263 | costs distribute over joined files, for any prices |

## Left out

- Scheduler.Scheduler: one reading of the clock per step, `get_queue_status`, the polling interval, and a queue too large for the store's size check. A step is atomic, as it is while the awaits of the memory layer do not suspend. What other processes do to Redis is a step of its own.
- AddRace.NothingLostIff: late answers are arbitrary lists, so what Redis holds and forgets meanwhile is not followed; memory drops nothing during the race, and no deployment is healthy.
- DualCache.DualCache.AsyncSetCache: evicts by the result that `InMemoryCache.InMemoryCache.EvictCache` is proved to have, without a heap of deadlines of its own.
- MixedHeap.TryPush: swaps as CPython's C implementation of heapq does, which decides what a raised TypeError leaves behind.
- InMemoryCache.InMemoryCache.SetCache: the size estimate is a parameter; `increment`, `sadd` and batch reads are not modelled.
- CacheRuns.OthersDoNotInterfere: is about runs without full-cache writes; one such write is covered by CacheRuns.InterferesIff.
- CacheKey.BuildKeyText: `str` of a value is given as text; the `file` parameter, and the text of `litellm_params` itself when provider-specific parameters enter the key, are not modelled.
- CacheKey.ModelParamValue: computes the value that BuildKeyText is given for `model`; the two are not joined in one member.
- CacheKey.FinalKeyIsExact: says nothing about SHA-256; separation is assumed of the two texts compared.
- ResponseCache.Cache: backends other than the in-memory store, per-request cache objects, batching by flush size, and JSON encoding of responses (taken as the identity) are not modelled; an exception that the source logs and swallows is a call that writes nothing.
- FanOut: the `models` branch and `batch_completion_models_all_responses`, and the errors for an empty deployment list or one without a model name.
- FanOut.SubmittedClosedForm: asks for distinct dictionary objects; MergeDeployments does not.
- BatchResults.BatchCompletion: the vLLM branch.
- BatchResults.CollectAsCompleted: the id, creation time and model that the branch copies onto the shared response object.
- BudgetManager: persistence and its threads, token counting and prices (parameters), `projected_cost`, and that the default creation time is read once at import.
- LruWrapper.Wrapper.Call: the function is deterministic and does not call the wrapper; unhashable arguments, typed keys and threads are not modelled.
- ImageSize.ParseInt: Python's `int` also takes surrounding blanks and underscores.
- ImageSize.ImageCost: `n` is given; the source takes 1 for None.
- UsageTotals.AddAttributes: the source raises when it adds completion details that are neither numbers nor None; the rule here skips them.
- UsageTotals.CombineJoined: is about numbers of plain attributes and prompt details; completion details are covered by CompletionDetailsAreLost.
- BatchCost: the Vertex AI path, built-in tool costs, custom prices and provider lookup.
- Realtime stream cost: a first match over candidate model names, after the usage combination that is modelled.
- Provider dispatch, logging, timeouts, agent wrappers, other cache backends: plumbing around calls to code outside the repository.
