# Verification of the framework's in-memory algorithms and protocols

A Dafny model of the parts of the framework that keep explicit state or compute over whole structures: load
balancers, the TTL + LRU cache and the priority queue, the rate-limit algorithms, the concurrency primitives and
worker loops, the circuit breaker, and the structure transformations. Each module models one component; its header
says how. `dafny verify dfyconfig.toml` checks everything.

| module | what it models |
|---|---|
| WeightedRoundRobin, HashRing, Instances | smooth weighted round-robin and the consistent-hash ring, over listed instances |
| LruCache, PriorityQueue | the cache with its store, access order and position index; the binary heap |
| Buckets, Windows, RateLimit | token bucket and leaky bucket; sliding window log and fixed window; what they answer |
| ReadWriteLock, Semaphore, MapReduce | lock, semaphore with runAll, shared-index map/reduce |
| TaskQueue, WorkerPool | the in-process task queue and the worker-thread pool |
| CircuitBreaker | the timed state machine with operations in flight |
| Paths, FlattenObject, ConfigDiff, DottedPlaces, PatchExact | nested objects addressed by dotted keys; flatten, unflatten, configuration diff and patch |
| ModuleOrder, Bloom, BloomCounts, Luhn | module ordering, plain and counting Bloom filters, card check digits |
| Common, Integers | small datatypes and facts about sequences; minimum and maximum |

How the model speaks of the program:

- An object whose methods update its fields is a class with those fields, and a loop is a loop. Each method is proved
  equal to a function on the abstract state; the results over runs are lemmas about those functions. A loop inside
  another operation is sometimes a method of its own.
- Time is an argument. Where a result needs clock readings that do not go backwards, it says so; the others hold for
  any readings.
- Async code is cut at each `await`. What runs between two awaits is one atomic step, and every order of steps is
  covered.
- What the rate-limit algorithms admit or are asked for is counted for each key from its last `reset`.
- Hash functions are arbitrary functions, collisions included.
- Entries of an object or a map are visited in an arbitrary order where the order is not what the code depends on.
- Numbers are unbounded integers, except in Buckets, where they are exact reals.

Where the code does not do what one might expect, the model follows the code. In each case the exact condition is
proved:

- A flattened key is built with an empty prefix counting as none, so a top-level empty key that holds an object does
  not survive `unflattenObject(flattenObject(o))`, nor do empty nested objects and keys with dots
  (`FlattenObject.RoundTripIff`). The same quirk limits the use of `computeDiff` as a patch, forwards
  (`PatchExact.PatchWorksIff`) and backwards (`PatchExact.UndoWorksIff`).
- Weighted round-robin is exactly fair if and only if no listed weight is negative
  (`WeightedRoundRobin.FairIffNonNegative`); an id listed twice takes part with both shares.
- On the hash ring the instance listed last owns a colliding point, so reordering the list alone can move keys. It never
  does if and only if no two instances share a point (`HashRing.OrderIsIrrelevantIff`), and swapping two neighbours
  does not if and only if every point they share belongs to a later instance too (`HashRing.SwapIsStableIff`).
- An expired cache entry stays stored until something finds it expired (`LruCache.StoredIff`), and is never answered
  (`LruCache.HitIff`).
- A cache stays within `maxEntries` if and only if that is at least 1: with 0 or less it still holds one entry
  (`LruCache.WithinMaxIff`).
- A fixed window keeps an interval within the limit if and only if the interval lies in one aligned window, and admits
  up to the limit for each window touched (`Windows.WithinLimitIff`, `Windows.LeastBound`).
- A closed breaker stays below its threshold if and only if the threshold is at least 1
  (`CircuitBreaker.ClosedBelowThresholdIff`). A half-open breaker admits any number of operations, whatever its
  configuration (`CircuitBreaker.HalfOpenAdmitsAny`).
- `mapReduce` rejects with a map call's rejection if and only if some call rejects, and with a concurrency below 1 ends
  in the error of reducing an empty array (`MapReduce.MapReduce`).
- A worker pool keeps every accepted task in one place if and only if no `run` hands a task whose message cannot be
  cloned straight to an idle worker: that task is rejected and stays on the worker (`WorkerPool.OnePlaceIff`). A waiting
  one that is handed over later stays on its worker alone. Either way the worker is lost until it fails
  (`WorkerPool.StuckUntilError`), and every task on a worker has reached it if and only if every task handed to one can
  be cloned (`WorkerPool.RunDeliversIff`).
- `WorkerPool.terminate` leaves every task settled if and only if no worker holds an unsettled one
  (`WorkerPool.TerminateSettlesIff`).
- A counting filter can lose items that it still holds. In a run that removes only held items it never does if and only
  if every loaded position always has more load than it has missed by saturating (`BloomCounts.NeverLosesIff`); with
  every shape that has a hash function some run does (`BloomCounts.SaturationLosesItems`).

## Model

| member | source | states |
|---|---|---|
| WeightedRoundRobin.WeightedRoundRobin.constructor | packages/discovery/src/load-balancer.ts:117-124 | A balancer that has not been fed yet: no instances, weights or connection counts. |
| WeightedRoundRobin.WeightedRoundRobin.UpdateInstances | packages/discovery/src/load-balancer.ts:126-137 | Keeps the instances of this service in order; the new weight and current-weight maps are the old ones overwritten listing by listing; connection counts stay. |
| WeightedRoundRobin.WeightedRoundRobin.InitializeWeights | packages/discovery/src/load-balancer.ts:126-132 | The two maps after the loop are the old ones overwritten listing by listing. |
| WeightedRoundRobin.UpdateDeclares | packages/discovery/src/load-balancer.ts:126-132 | After an update a listed id carries the weight of its last listing and a current weight of 0. |
| WeightedRoundRobin.UpdateLeaves | packages/discovery/src/load-balancer.ts:126-132 | Ids that are not listed keep the weights of earlier updates. |
| WeightedRoundRobin.UpdateFresh | packages/discovery/src/load-balancer.ts:126-132 | An update leaves every listed current weight at 0, the state the fairness results start from. |
| WeightedRoundRobin.WeightedRoundRobin.Pick | packages/discovery/src/load-balancer.ts:139-165 | The loop over the instances selects and charges exactly as the pick function does; only the selected id's connection count grows, by one. |
| WeightedRoundRobin.PickEarliest | packages/discovery/src/load-balancer.ts:145-158 | For any weights and ids, repeated ones included, the pick is the earliest position whose weight, as raised when the loop reaches it, is greatest; nobody is picked if and only if no raised weight reaches 0. |
| WeightedRoundRobin.PickGreatest | packages/discovery/src/load-balancer.ts:145-158 | For nonnegative weights the selected id is one whose raised weight, counting every listing, is greatest, and nobody is selected only if none reaches 0. |
| WeightedRoundRobin.PickEffect | packages/discovery/src/load-balancer.ts:145-161 | A pick raises every id by its total weight and charges the selected one the whole total; no other id changes. |
| WeightedRoundRobin.PickSum | packages/discovery/src/load-balancer.ts:143-161 | For any weights, a pick keeps the sum of the current weights, or raises it by the total if it selects nobody. |
| WeightedRoundRobin.PickSelects | packages/discovery/src/load-balancer.ts:143-161 | For any weights, as long as the current weights and the total do not sum to less than 0, somebody is selected. |
| WeightedRoundRobin.PickLeads | packages/discovery/src/load-balancer.ts:143-161 | From current weights that sum to 0, with nonnegative weights of positive total, the selected id ends above minus the total. |
| WeightedRoundRobin.PrefixFairness | packages/discovery/src/load-balancer.ts:139-165 | After any number t of picks the current weight of an id is t*w - W*count, is above -W, and W*count < t*w + W. |
| WeightedRoundRobin.FullCycle | packages/discovery/src/load-balancer.ts:139-165 | W picks bring every current weight back to where the cycle started. |
| WeightedRoundRobin.Periodic | packages/discovery/src/load-balancer.ts:139-165 | From any point of a run the state repeats every W picks. |
| WeightedRoundRobin.ExactFairness | packages/discovery/src/load-balancer.ts:139-165 | Any W consecutive picks, wherever they start, choose each id exactly its weight times. |
| WeightedRoundRobin.FairIffNonNegative | packages/discovery/src/load-balancer.ts:129-158 | For a positive total, the first W picks are exactly fair if and only if no listed weight is negative; the source accepts negative weights. |
| WeightedRoundRobin.FairAsListed | packages/discovery/src/load-balancer.ts:126-165 | From what is listed to what is picked: after an update with any list, whatever was stored before, any W consecutive picks choose each id as often as its listings of this service weigh, W being the sum over all of them; a listing weighs what the last listing with its id declares, 1 if that declares nothing. |
| Instances.NamedIs | packages/discovery/src/load-balancer.ts:65-66 | What is kept of a list are all listings under the name, each as often as listed and in the order listed. |
| HashRing.ConsistentHash.constructor | packages/discovery/src/load-balancer.ts:215-223 | An unfed balancer has an empty ring that matches its empty instance list. |
| HashRing.ConsistentHash.UpdateInstances | packages/discovery/src/load-balancer.ts:225-228 | Keeps the instances of this service and leaves a ring that matches them. |
| HashRing.ConsistentHash.RebuildRing | packages/discovery/src/load-balancer.ts:230-246 | The ring maps each point to the last listed instance having it, and the sorted hashes list every point of every instance in ascending order. |
| HashRing.ConsistentHash.PlaceNodes | packages/discovery/src/load-balancer.ts:236-243 | The instance takes over exactly its own points, whoever had them. |
| HashRing.VirtualNodes | packages/discovery/src/load-balancer.ts:235-239 | An instance has 160 virtual nodes per unit of its declared weight, 160 if it declares none, none if negative, with as many different labels; its points are the hashes of the labels. |
| HashRing.DecimalReads | packages/discovery/src/load-balancer.ts:239-239 | The number in a label is written in decimal digits that read back as that number. |
| HashRing.LabelsDiffer | packages/discovery/src/load-balancer.ts:239-239 | Two virtual nodes have the same label only if they are the same node of the same instance id. |
| HashRing.ConsistentHash.IncrementConnections | packages/discovery/src/load-balancer.ts:87-90 | Adds one to that id's count and changes no other. |
| HashRing.ConsistentHash.Pick | packages/discovery/src/load-balancer.ts:257-280 | Returns the healthy owner of the cyclic successor of the key's hash, or nothing if no owner is healthy; counts one connection for it. |
| HashRing.ConsistentHash.NextHealthy | packages/discovery/src/load-balancer.ts:270-279 | The walk round the ring after an unhealthy first point ends at the route of the key, or at nothing after a full round. |
| HashRing.ConsistentHash.FindIndex | packages/discovery/src/load-balancer.ts:261-262 | The first position at or after the hash, wrapping to position 0. |
| HashRing.RouteIsFunction | packages/discovery/src/load-balancer.ts:257-280 | The route of a key exists and is unique, so it pins the result of a pick. |
| HashRing.FirstHealthy | packages/discovery/src/load-balancer.ts:264-278 | The first healthy entry met on the walk from the successor position is the route, even though colliding hashes are listed several times. |
| HashRing.NoneHealthy | packages/discovery/src/load-balancer.ts:270-279 | A whole round without a healthy entry means that no point has a healthy owner. |
| HashRing.OwnerInsert | packages/discovery/src/load-balancer.ts:235-244 | Listing one more instance anywhere gives each point its old owner or the new instance, hash collisions included. |
| HashRing.MinimalDisruption | packages/discovery/src/load-balancer.ts:230-280 | Adding or removing one healthy instance at any place of the list moves only the keys that go to it or came from it. |
| HashRing.SwapIsStableIff | packages/discovery/src/load-balancer.ts:230-280 | With all instances healthy, swapping two neighbours of the list leaves every route as it is if and only if they are the same or every point they share is also a point of an instance listed after them. |
| HashRing.OrderIsIrrelevantIff | packages/discovery/src/load-balancer.ts:230-280 | With all instances healthy, every reordering of the list routes every key alike if and only if no two different instances have a point in common. |
| HashRing.LastListedTakes | packages/discovery/src/load-balancer.ts:235-244 | A key whose hash is a point of several healthy instances goes to the one listed last, so swapping two instances moves it. |
| HashRing.SortSorts | packages/discovery/src/load-balancer.ts:245-245 | The order the hashes are left in is ascending. |
| HashRing.SortKeeps | packages/discovery/src/load-balancer.ts:245-245 | Sorting keeps every hash as often as it was pushed. |
| LruCache.Cache.constructor | packages/collection/src/index.ts:26-29 | An empty cache; the lifetime defaults to five minutes. |
| LruCache.Cache.Get | packages/collection/src/index.ts:31-47 | A live entry is returned and becomes most recently used; an expired one is deleted and missed; a missing one changes nothing. |
| LruCache.Cache.Set | packages/collection/src/index.ts:49-70 | Overwrites and touches a key that is present; otherwise makes room by evicting the head when full, then appends the key. |
| LruCache.Cache.Delete | packages/collection/src/index.ts:72-78 | Removes the key from all three structures and says whether it was there. |
| LruCache.Cache.Has | packages/collection/src/index.ts:80-88 | Deletes an expired entry, never touches the order. |
| LruCache.Cache.Clear | packages/collection/src/index.ts:90-94 | Empties all three structures. |
| LruCache.Cache.Size | packages/collection/src/index.ts:96-99 | Removes exactly the expired entries, then counts. |
| LruCache.Cache.RebuildIndex | packages/collection/src/index.ts:143-148 | The position index becomes the exact inverse of the order. |
| LruCache.Cache.TouchKey | packages/collection/src/index.ts:117-127 | Moves the key to the end, keeps the others in order and the index exact. |
| LruCache.Cache.AddToAccessOrder | packages/collection/src/index.ts:129-132 | Appends a new key, index exact. |
| LruCache.Cache.RemoveFromAccessOrder | packages/collection/src/index.ts:134-141 | Takes the key out, index exact. |
| LruCache.Cache.EvictExpired | packages/collection/src/index.ts:150-159 | Visiting the entries in any order removes exactly the expired ones. |
| LruCache.Cache.EvictLRU | packages/collection/src/index.ts:161-169 | Removes exactly the head of the access order. |
| LruCache.StepKeeps | packages/collection/src/index.ts:31-169 | Every operation keeps the order a duplicate-free listing of the store's keys and the size within capacity. |
| LruCache.RunKeeps | packages/collection/src/index.ts:31-169 | So does every run from empty, clocks going backwards included. |
| LruCache.WithinMaxIff | packages/collection/src/index.ts:62-69 | A cache with maxEntries m stays within m entries in every run if and only if m is at least 1. |
| LruCache.OrderIsByLastUse | packages/collection/src/index.ts:31-70 | In every reachable state the access order lists the keys by their last set or hit, earliest first. |
| LruCache.HeadIsLeastRecentlyUsed | packages/collection/src/index.ts:161-169 | The key eviction would remove was set or hit before every other key that is present. |
| LruCache.SetEvictsHead | packages/collection/src/index.ts:62-69 | A set of a new key into a cache that holds maxEntries or more, and at least one, drops the head and nothing else. |
| LruCache.SetEvictsNothing | packages/collection/src/index.ts:50-69 | Any other set drops nothing. |
| LruCache.StoredIsLastSet | packages/collection/src/index.ts:49-70 | In every run a stored key holds the value of the last set of it, and lives until the time of that set plus its ttl, the default if it gave none. |
| LruCache.HitIff | packages/collection/src/index.ts:31-47 | A get answers v if and only if the key is stored, v is what the last set of it stored, and that was no longer ago than its ttl. |
| LruCache.StoredIff | packages/collection/src/index.ts:31-99 | Without a capacity a key is stored if and only if it was set and since then neither deleted nor cleared nor found expired by a get or has of it or a size. |
| LruCache.LastAccessedIs | packages/collection/src/index.ts:42-58 | An entry was last accessed at the time of the last set or hit of its key. |
| LruCache.RoomCore | packages/collection/src/index.ts:62-65 | Making room keeps a smaller cache contained in a larger one, whichever of them is full. |
| LruCache.SetIncluded | packages/collection/src/index.ts:49-70 | A set keeps the contents of the smaller cache contained in the larger. |
| LruCache.QuietFollows | packages/collection/src/index.ts:31-99 | So does every other operation, and a hit of the smaller one is the same hit of the larger. |
| LruCache.Inclusion | packages/collection/src/index.ts:31-169 | For any trace and clock readings, a cache of capacity n stays, entry for entry and in the same relative order, inside one of capacity m >= n, unbounded included. |
| LruCache.HitsIncluded | packages/collection/src/index.ts:31-47 | Every hit of the smaller cache is the same hit in the larger. |
| PriorityQueue.PriorityQueue.constructor | packages/collection/src/index.ts:464-466 | An empty queue, over any comparator. |
| PriorityQueue.PriorityQueue.Enqueue | packages/collection/src/index.ts:468-471 | Adds exactly this entry, whatever the comparator; keeps the heap order for a total preorder. |
| PriorityQueue.PriorityQueue.Dequeue | packages/collection/src/index.ts:473-482 | Takes out exactly one entry, whatever the comparator; for a total preorder one that is no greater than any other under (priority, comparator); nothing on an empty queue. |
| PriorityQueue.PriorityQueue.BubbleUp | packages/collection/src/index.ts:501-508 | Only swaps, and ends, whatever the comparator; for a total preorder it repairs a heap that is out of order only upwards of one position. |
| PriorityQueue.PriorityQueue.SinkDown | packages/collection/src/index.ts:510-528 | Only swaps, and ends, whatever the comparator; for a total preorder it repairs a heap that is out of order only downwards of the root. |
| PriorityQueue.RootIsLeast | packages/collection/src/index.ts:473-475 | The root of a heap is no greater than any entry. |
| PriorityQueue.SwapUp | packages/collection/src/index.ts:501-508 | Swapping with a greater parent moves the one disorder up. |
| PriorityQueue.SwapDown | packages/collection/src/index.ts:510-528 | Swapping with the least child moves the one disorder down. |
| PriorityQueue.LeastOfThree | packages/collection/src/index.ts:514-523 | The two comparisons of a sinking step find a least of the node and its children. |
| PriorityQueue.Drain | packages/collection/src/index.ts:473-482 | Dequeuing until empty returns a permutation of the contents, sorted if the comparator is a total preorder. |
| Paths.SplitDotFree | packages/core/src/utils.ts:155-155 | Splitting at dots gives dot-free parts that join back to the key. |
| Paths.SplitJoin | packages/core/src/utils.ts:139-155 | Joining dot-free parts and splitting again gives the parts back. |
| Paths.SplitKeyIff | packages/core/src/utils.ts:139-155 | A path is recovered from the key built for it if and only if its parts are dot-free and it does not start with an empty part followed by more: an empty prefix counts as none. |
| Paths.LeavesApart | packages/core/src/utils.ts:138-146 | No leaf of a nested object lies on the way to another. |
| Paths.LeavesDetermine | packages/core/src/utils.ts:138-146 | Two objects without empty nested objects are equal if they have the same leaves. |
| Paths.SetPathLeaves | packages/core/src/utils.ts:154-166 | Writing a value at a path adds that leaf and destroys exactly the leaves above and below it. |
| Paths.SetPathNoEmpty | packages/core/src/utils.ts:158-166 | Writing at a path never leaves an empty nested object. |
| Paths.SetPathClean | packages/core/src/utils.ts:158-166 | Writing at a dot-free path keeps all keys dot-free. |
| FlattenObject.FlattenObject | packages/core/src/utils.ts:135-149 | The flat object holds, for every leaf, an entry under the key built from its path, and nothing else. |
| FlattenObject.WriteEntry | packages/core/src/utils.ts:156-166 | The walk that creates missing or replaces plain values by objects stores the value at the path and changes nothing elsewhere. |
| FlattenObject.UnflattenObject | packages/core/src/utils.ts:151-170 | Writes every entry once, in the order it visits them. |
| FlattenObject.FlatKeysApart | packages/core/src/utils.ts:138-146 | Different leaves of a clean object get different keys, and neither key's path is a prefix of the other's. |
| FlattenObject.WrittenKeeps | packages/core/src/utils.ts:154-167 | Entries with pairwise separate paths all survive, whatever the order. |
| FlattenObject.WrittenFrom | packages/core/src/utils.ts:154-167 | Every leaf of an unflattened object comes from an entry. |
| FlattenObject.WrittenShape | packages/core/src/utils.ts:154-167 | An unflattened object has only dot-free keys and no empty nested object. |
| FlattenObject.CleanRoundTrip | packages/core/src/utils.ts:135-170 | Unflattening the flattened object gives it back when keys are dot-free, no nested object is empty and no top-level empty key holds an object. |
| FlattenObject.RoundTripIff | packages/core/src/utils.ts:135-170 | And only then: for any object and any order of writing, the round trip holds if and only if the object is clean. |
| ConfigDiff.ComputeDiff | packages/config/src/versioning.ts:240-261 | Reports every shallowest place where the two configurations differ exactly once, with its kind, its path key, and both values. |
| ConfigDiff.EmptyIffEqual | packages/config/src/versioning.ts:240-261 | The report is empty if and only if the configurations are equal. |
| ConfigDiff.ReportedKinds | packages/config/src/versioning.ts:244-257 | What is reported as added has nothing in the first configuration, as removed nothing in the second, else it is modified; the old and new values are those the two hold at that path. |
| ConfigDiff.ChangedApart | packages/config/src/versioning.ts:244-258 | No changed place lies inside another. |
| ConfigDiff.ReportsApart | packages/config/src/versioning.ts:244-258 | When every changed path can be read back from its key, no reported path is a prefix of another. |
| ConfigDiff.PatchOne | packages/config/src/versioning.ts:249-257 | Applying the change at one changed path settles that path and leaves all others as they were. |
| ConfigDiff.PatchPrefix | packages/config/src/versioning.ts:244-260 | After the first n reports are applied, what still differs is exactly what the other reports name. |
| ConfigDiff.PatchWorks | packages/config/src/versioning.ts:240-261 | Applying the report to the first configuration gives the second, if every changed path can be read back from its key. |
| DottedPlaces.ChangedPrefix | packages/config/src/versioning.ts:245-258 | Above a changed place both configurations hold objects, and they differ. |
| DottedPlaces.PatchAtPlace | packages/config/src/versioning.ts:245-258 | A write at a dot-free path changes what is under a dotted key only by writing above it. |
| DottedPlaces.LastWrite | packages/config/src/versioning.ts:240-261 | What the applied report leaves under a dotted key is decided by the last difference read as a path above it. |
| DottedPlaces.Decides | packages/config/src/versioning.ts:240-261 | In a patch that works, what b has under a dotted key is what a had, or part of a value reported for another path. |
| PatchExact.ReadLonger | packages/config/src/versioning.ts:245-246 | A dotted path is read back from its key as a path that leads past its first dotted key. |
| PatchExact.NoTopDotted | packages/config/src/versioning.ts:245-256 | A changed top-level key with a dot is never repaired. |
| PatchExact.NoDottedChange | packages/config/src/versioning.ts:245-258 | Nor is a change below a dotted key at any depth, unless objects under the top-level empty key differ. |
| PatchExact.KeyWithoutLead | packages/config/src/versioning.ts:245-254 | Leading empty keys leave no trace in a reported path. |
| PatchExact.EmptyKeyStays | packages/config/src/versioning.ts:245-254 | A difference between the objects under the top-level empty key is never repaired, whatever else is reported. |
| PatchExact.PatchWorksIff | packages/config/src/versioning.ts:240-261 | For all configurations: applying the report to the first gives the second if and only if every changed path can be read back from its key. |
| PatchExact.UndoneIsDiff | packages/config/src/versioning.ts:240-261 | The report with additions and removals exchanged, and old and new values, is a report of the two configurations the other way round. |
| PatchExact.UndoWorksIff | packages/config/src/versioning.ts:240-261 | Applying that to the second configuration gives the first if and only if every changed path can be read back from its key. |
| PatchExact.DotFreePatchIff | packages/config/src/versioning.ts:240-261 | For dot-free keys: if and only if not both hold objects under the top-level empty key that differ. |
| Buckets.TokenBucket.constructor | packages/limit/src/strategies.ts:111-112 | No buckets. |
| Buckets.TokenBucket.Consume | packages/limit/src/strategies.ts:114-138 | Refills up to the limit for the time passed, admits if enough tokens are left, and reports the whole tokens left. |
| Buckets.TokenBucket.Reset | packages/limit/src/strategies.ts:159-161 | Forgets exactly that key. |
| Buckets.LeakyBucket.constructor | packages/limit/src/strategies.ts:164-165 | No buckets. |
| Buckets.LeakyBucket.Consume | packages/limit/src/strategies.ts:167-191 | Leaks down to 0 for the time passed, admits if the cost still fits, and reports what is left. |
| Buckets.LeakyBucket.Reset | packages/limit/src/strategies.ts:212-214 | Forgets exactly that key. |
| Buckets.SameState | packages/limit/src/strategies.ts:114-191 | Fed the same calls, tokens + level = limit for every key after every call, with any clock readings and costs. |
| Buckets.SameDecisions | packages/limit/src/strategies.ts:129-185 | So the two algorithms admit exactly the same calls. |
| Buckets.SameRemaining | packages/limit/src/strategies.ts:134-187 | The tokens reported left are what the leaky bucket reports, rounded down. |
| Buckets.FoundAtMost | packages/limit/src/strategies.ts:125-126 | A bucket never holds more than the limit and what has accrued since s, less what has been admitted since s, for any s. |
| Buckets.FoundIs | packages/limit/src/strategies.ts:125-126 | It holds exactly that for now or for the time of some earlier call. |
| Buckets.TokenDecision | packages/limit/src/strategies.ts:125-132 | A call is admitted if and only if, for now and for the time s of every earlier call, what was admitted in [s, now] and its cost are at most limit + limit*(now-s)/windowMs. |
| Buckets.LeakDecision | packages/limit/src/strategies.ts:178-185 | A leaky bucket decides by the same rule. |
| Buckets.AccruedIs | packages/limit/src/strategies.ts:116-126 | What accrues in dt is limit * dt / windowMs. |
| Buckets.AccruedBound | packages/limit/src/strategies.ts:114-138 | The cost admitted in any interval is at most the limit plus what accrues over it. |
| Buckets.TokenBound | packages/limit/src/strategies.ts:114-138 | In every closed interval [s,t] the token bucket admits at most limit + limit*(t-s)/windowMs. |
| Buckets.LeakBound | packages/limit/src/strategies.ts:167-191 | The leaky bucket has the same bound. |
| Windows.SlidingWindowLog.constructor | packages/limit/src/strategies.ts:217-218 | No logs. |
| Windows.SlidingWindowLog.Consume | packages/limit/src/strategies.ts:220-240 | Decides on the entries newer than the window, saves the pruned log with the new entry only when it admits. |
| Windows.SlidingWindowLog.FilterAndSum | packages/limit/src/strategies.ts:226-228 | The entries newer than the window start, in order, and the sum of their counts. |
| Windows.SlidingWindowLog.Reset | packages/limit/src/strategies.ts:261-263 | Forgets exactly that key. |
| Windows.LogAccounts | packages/limit/src/strategies.ts:225-234 | For every start the window can still reach, the stored log sums to the cost admitted since, although it is pruned only on admission. |
| Windows.SlidingDecision | packages/limit/src/strategies.ts:225-229 | A call is admitted if and only if the cost admitted in the window before it and since the last reset of its key, plus its own, is within the limit. |
| Windows.SlidingBound | packages/limit/src/strategies.ts:220-240 | Never more than limit admitted in any half-open interval (a, a + windowMs]. |
| Windows.FixedWindow.constructor | packages/limit/src/strategies.ts:16-17 | No windows. |
| Windows.FixedWindow.Consume | packages/limit/src/strategies.ts:19-40 | Counts the cost, rejected or not, in the window the clock reading falls in by JavaScript remainder, negative readings and windows included, and admits up to the limit. |
| Windows.FixedWindow.Reset | packages/limit/src/strategies.ts:62-64 | Forgets exactly that key. |
| Windows.CounterIsRequested | packages/limit/src/strategies.ts:24-30 | The stored counter is the cost requested in its aligned window since the last reset. |
| Windows.FixedDecision | packages/limit/src/strategies.ts:30-31 | A call is admitted if and only if all the cost requested in its aligned window since the last reset of its key, its own included, is within the limit. |
| Windows.AlignedBound | packages/limit/src/strategies.ts:19-40 | At most limit admitted in each aligned window. |
| Windows.IntervalBound | packages/limit/src/strategies.ts:19-40 | In any closed interval at most the limit is admitted for each aligned window it touches. |
| Windows.IntervalBoundIsReached | packages/limit/src/strategies.ts:19-40 | For every policy and interval that bound is reached, by one call of the whole limit in each window. |
| Windows.LeastBound | packages/limit/src/strategies.ts:19-40 | So a bound holds for what an interval admits, over all call sequences, if and only if it is at least the limit times the aligned windows touched. |
| Windows.WithinLimitIff | packages/limit/src/strategies.ts:19-40 | The limit itself holds for an interval if and only if the interval lies in one aligned window. |
| Windows.FixedBound | packages/limit/src/strategies.ts:19-40 | At most twice the limit is admitted in any closed interval [s, s + windowMs]. |
| ModuleOrder.Bootstrap.constructor | packages/core/src/lifecycle.ts:199-200 | Nothing visited, nothing listed. |
| ModuleOrder.Bootstrap.Visit | packages/core/src/lifecycle.ts:202-214 | Lists the modules it newly visits after their imports, keeps the open modules exactly those on the way to it, and ends on every finite graph. |
| ModuleOrder.Order | packages/core/src/lifecycle.ts:198-218 | Exactly the modules reachable from the given ones, each once, every import before its importer unless it reaches back to it. |
| ModuleOrder.Finish | packages/core/src/lifecycle.ts:213-213 | Listing a module whose imports are all visited keeps that order, cycles included. |
| ModuleOrder.AllListed | packages/core/src/lifecycle.ts:216-218 | When nothing is open, what was visited is what is reachable, and all of it is listed. |
| ModuleOrder.ClosedReaches | packages/core/src/lifecycle.ts:207-211 | A set closed under imports holds all that its members reach. |
| ModuleOrder.ImportPrecedes | packages/core/src/lifecycle.ts:198-218 | If u imports v and v cannot reach u, then v comes before u. |
| ModuleOrder.TopologicalIfAcyclic | packages/core/src/lifecycle.ts:198-218 | On an acyclic graph everything a module reaches comes before it. |
| ReadWriteLock.ReadWriteLock.constructor | packages/concurrency/src/index.ts:498-502 | A free lock. |
| ReadWriteLock.ReadWriteLock.ReadAcquire | packages/concurrency/src/index.ts:510-519 | Granted unless a writer is active or waiting; else queued. |
| ReadWriteLock.ReadWriteLock.ReadRelease | packages/concurrency/src/index.ts:520-527 | The last reader hands over to the first waiting writer. |
| ReadWriteLock.ReadWriteLock.WriteAcquire | packages/concurrency/src/index.ts:537-546 | Granted only on a free lock; else queued. |
| ReadWriteLock.ReadWriteLock.WriteRelease | packages/concurrency/src/index.ts:547-560 | Hands over to the first waiting writer, else wakes all waiting readers in order. |
| ReadWriteLock.NextExclusive | packages/concurrency/src/index.ts:507-562 | A step keeps writers exclusive and the counters equal to the holders. |
| ReadWriteLock.NextSeparate | packages/concurrency/src/index.ts:507-562 | No request waits twice, or waits while it holds. |
| ReadWriteLock.NextServes | packages/concurrency/src/index.ts:507-562 | Writers are served in the order they asked, and so are readers among themselves; a waiting reader waits for a writer, a waiting writer for a holder. |
| ReadWriteLock.EveryRunIsSafe | packages/concurrency/src/index.ts:507-562 | All of this in every state of every run of matched acquires and releases. |
| ReadWriteLock.NoReaderOvertakesWriter | packages/concurrency/src/index.ts:510-526 | A reader enters only when no writer waits, before and after. |
| ReadWriteLock.WriterAdvances | packages/concurrency/src/index.ts:510-560 | A release brings every waiting writer one nearer to the lock, to the lock itself at distance 1, and an acquire changes no distance; the distance counts the writers ahead and the holders inside. |
| ReadWriteLock.WaitingWriterServedIff | packages/concurrency/src/index.ts:510-560 | In every run: whatever is acquired in the meantime, a waiting writer has been served, and in its turn, if and only if as many releases have been made as its distance said when they began. |
| Semaphore.Semaphore.constructor | packages/concurrency/src/index.ts:106-111 | All slots free. |
| Semaphore.NewSemaphore | packages/concurrency/src/index.ts:106-111 | A semaphore is made if and only if max is positive. |
| Semaphore.LaunchGrants | packages/concurrency/src/index.ts:159-178 | Launching starts min(max, n) workers, worker i with function i, and grants as many of them as there are free slots, in order: all of them on a free semaphore. |
| Semaphore.Semaphore.Acquire | packages/concurrency/src/index.ts:116-126 | Takes a free slot or joins the end of the queue. |
| Semaphore.Semaphore.Release | packages/concurrency/src/index.ts:131-141 | Gives the slot to the head of the queue if there is one. |
| Semaphore.StepKeeps | packages/concurrency/src/index.ts:116-184 | Each step, of a worker or of any other client, keeps: holders = slots taken <= max, waiting only when full, every claimed function in exactly one hand, called at most once. |
| Semaphore.EveryRunIsSafe | packages/concurrency/src/index.ts:116-184 | So in every state of every interleaving, failing functions included. |
| Semaphore.ServedInTurn | packages/concurrency/src/index.ts:116-141 | In every run, whatever else is asked for, a client waiting at position k moves up by one at each release and holds a slot after k+1 of them: slots are given in the order asked for. |
| Semaphore.FinishedIsComplete | packages/concurrency/src/index.ts:159-184 | When all workers have stopped and nothing failed, result i is that of function i for every i, and each function was called exactly once. |
| Semaphore.NeverStuck | packages/concurrency/src/index.ts:159-184 | Until all workers have stopped, one of them can move or another client holds a slot. |
| Semaphore.StepProgress | packages/concurrency/src/index.ts:164-172 | Every step of a worker adds one to a progress count and no other step changes it. |
| Semaphore.ProgressBound | packages/concurrency/src/index.ts:164-172 | The count never passes 2n. |
| Semaphore.RunProgress | packages/concurrency/src/index.ts:164-172 | In every run the count is the number of steps the workers have made. |
| Semaphore.EveryRunEnds | packages/concurrency/src/index.ts:159-184 | In every run, whatever the schedule, the workers make at most 2n steps. |
| Semaphore.QuietIffFinished | packages/concurrency/src/index.ts:159-184 | Once launched and as long as nobody else holds a slot, no worker can make a step if and only if all have finished. |
| MapReduce.MapReduce | packages/mr/src/index.ts:31-63 | For every interleaving and concurrency >= 1: if every map call resolves, the last accumulator of folding the results in item order, each item mapped once; else the rejection of some item that was mapped and rejects. At its peak exactly min(concurrency, n) calls are pending, and the items mapped are the first ones, once each. No item and no worker are the two other errors. |
| MapReduce.ReduceFolds | packages/mr/src/index.ts:62-62 | Reducing goes from the left: the accumulator starts as the first result and takes in one result after the other. |
| MapReduce.RunWorkers | packages/mr/src/index.ts:46-59 | Whichever pending call ends next, resolved or rejected, the loop ends, and without rejections all results are stored at their own index. |
| MapReduce.FinishKeeps | packages/mr/src/index.ts:47-50 | A worker's step keeps every claimed item with one worker, stored or failed. |
| MapReduce.FinishProgress | packages/mr/src/index.ts:47-50 | A worker's step leaves less to do, whether its call resolves or rejects, and no item called twice. |
| MapReduce.LaunchedWorks | packages/mr/src/index.ts:54-57 | The state after launching the workers is one the steps keep. |
| Bloom.NewBloomFilter | packages/bloom/src/index.ts:84-99 | The two errors, for a number of items that is not positive and for a rate outside (0, 1), or else an empty filter of the computed sizes; the rate defaults to 0.01. |
| Bloom.BloomFilter.constructor | packages/bloom/src/index.ts:92-98 | All bits clear. |
| Bloom.BloomFilter.Add | packages/bloom/src/index.ts:105-114 | Sets exactly the bits of the item's probes. |
| Bloom.BloomFilter.Has | packages/bloom/src/index.ts:123-134 | True if and only if all bits of the item's probes are set. |
| Bloom.SetWord | packages/bloom/src/index.ts:111-111 | Or-ing with a one-bit mask sets that bit of the word and no other. |
| Bloom.ClearWord | packages/bloom/src/index.ts:319-319 | And-ing with the complement clears that bit and no other. |
| Bloom.NibbleOfWith | packages/bloom/src/index.ts:327-342 | Writing one half of a byte is read back from it and leaves the other half. |
| Bloom.CounterAtWith | packages/bloom/src/index.ts:327-342 | Writing one packed counter changes no other. |
| Bloom.NewCountingBloomFilter | packages/bloom/src/index.ts:219-223 | The same two errors, or else an empty counting filter of the computed sizes. |
| Bloom.CountingBloomFilter.constructor | packages/bloom/src/index.ts:219-223 | All bits and counters 0. |
| Bloom.CountingBloomFilter.Add | packages/bloom/src/index.ts:229-236 | Every probe adds one to its counter, up to 15; bit i stays set exactly where counter i is not 0. |
| Bloom.CountingBloomFilter.Remove | packages/bloom/src/index.ts:244-256 | If the item is reported present, every probe takes one off its counter, down to 0; otherwise nothing changes. |
| Bloom.CountingBloomFilter.DecrementProbes | packages/bloom/src/index.ts:250-253 | The loop takes one off for each probe in turn. |
| Bloom.CountingBloomFilter.Has | packages/bloom/src/index.ts:123-134 | Reading the bits answers whether all probed counters are nonzero. |
| Bloom.HasIff | packages/bloom/src/index.ts:105-134 | In terms of the two hashes: after any additions a plain filter answers true if and only if each probe (hash1 % bits + k*(hash2 % bits)) % bits of the item coincides with a probe of an added item. |
| Bloom.LoadIs | packages/bloom/src/index.ts:229-236 | The load of a position is the number of probes of held items, by item and probe number, that fall there by that formula. |
| Bloom.CountingBloomFilter.IncrementCounter | packages/bloom/src/index.ts:293-304 | One counter goes up unless it is 15, all others stay, bits and counters stay linked. |
| Bloom.CountingBloomFilter.DecrementCounter | packages/bloom/src/index.ts:309-322 | One counter goes down unless it is 0, its bit cleared when it reaches 0, bits and counters stay linked. |
| Bloom.CountingBloomFilter.Serialize | packages/bloom/src/index.ts:262-271 | The packed arrays, sizes and size as they are: a consistent record. |
| Bloom.CountingBloomFilter.Deserialize | packages/bloom/src/index.ts:278-288 | For any record, with or without counting data: the recorded arrays, or the counters of the filter it starts from, in arrays of its own; the result is a valid filter if and only if the record is consistent. |
| Bloom.Copy | packages/bloom/src/index.ts:262-288 | Serializing and deserializing gives a separate filter with the same shape, counters and size, hence the same answers and the same evolution. |
| BloomCounts.BitsAreLoads | packages/bloom/src/index.ts:105-114 | A bit is set if and only if some probe of some added item fell on it. |
| BloomCounts.AddedIsFound | packages/bloom/src/index.ts:105-134 | An added item is always found. |
| BloomCounts.SameAnswersOnAdds | packages/bloom/src/index.ts:105-236 | Given additions only, in any number, the counting filter answers every query as the plain filter does. |
| BloomCounts.AddEffect | packages/bloom/src/index.ts:229-236 | An add raises counter i by the number of probes that hit i, saturating at 15. |
| BloomCounts.RemoveEffect | packages/bloom/src/index.ts:249-253 | A removal lowers counter i by the number of probes that hit i, stopping at 0. |
| BloomCounts.LoadWithout | packages/bloom/src/index.ts:249-253 | Taking one occurrence of an item out of a collection lowers each load by that item's hits. |
| BloomCounts.HeldIsFound | packages/bloom/src/index.ts:123-134 | Where counters equal loads, a held item is reported present. |
| BloomCounts.StepExact | packages/bloom/src/index.ts:229-256 | An add or a removal of a held item keeps counters equal to loads while loads stay within 15. |
| BloomCounts.ExactIffLoadsFit | packages/bloom/src/index.ts:229-342 | In a run that removes only held items, counters equal the true loads at all times if and only if no load ever passes 15. |
| BloomCounts.CountCovers | packages/bloom/src/index.ts:229-322 | In a run that removes only held items a counter covers the true load of its position until that load passes 15, whatever happens elsewhere. |
| BloomCounts.MissingMeansOverflow | packages/bloom/src/index.ts:123-322 | So a held item is reported missing only if the load of one of its own positions has passed 15. |
| BloomCounts.NoFalseNegative | packages/bloom/src/index.ts:123-256 | While no load passes 15 no held item is reported missing. |
| BloomCounts.StepDeficit | packages/bloom/src/index.ts:229-322 | From a state that finds every held item, after one more operation each counter is its load less what the load has exceeded 15 by since it was last 0, but no less than 0. |
| BloomCounts.NeverLosesIff | packages/bloom/src/index.ts:123-322 | In a run that removes only held items, every held item is found at all times if and only if at all times every loaded position has more load than it has exceeded 15 by since the load was last 0. |
| BloomCounts.FoundAfter | packages/bloom/src/index.ts:229-322 | An item added n times and then removed r times is found if and only if something is left of every counter its probes fall on, and what is left is min(15, n*h) - r*h for a position hit h times. |
| BloomCounts.FoundAgainIff | packages/bloom/src/index.ts:229-322 | For every shape: added n times and removed r < n times, a held item is found if and only if r*H < 15 or n*H <= 15, H being the most probes of it on one position. |
| BloomCounts.SaturationLosesItems | packages/bloom/src/index.ts:293-322 | The bound is needed: with any shape that has a hash function, 16 additions and 15 removals of one item leave a held item reported missing. |
| CircuitBreaker.CircuitBreaker.constructor | packages/breaker/src/circuit-breaker.ts:40-48 | Closed, zero counts, threshold 5 and reset timeout 30 s unless given. |
| CircuitBreaker.CircuitBreaker.GetState | packages/breaker/src/circuit-breaker.ts:50-57 | An open breaker whose time has come becomes half-open; nothing else changes. |
| CircuitBreaker.CircuitBreaker.Begin | packages/breaker/src/circuit-breaker.ts:71-85 | An operation starts unless the breaker is open after that look; a refusal carries the next attempt to the fallback if there is one, else to the error. |
| CircuitBreaker.CircuitBreaker.OnSuccess | packages/breaker/src/circuit-breaker.ts:97-106 | Counts; a half-open breaker closes. |
| CircuitBreaker.CircuitBreaker.OnFailure | packages/breaker/src/circuit-breaker.ts:108-125 | A counted failure opens a half-open breaker, and a closed one at the threshold; an uncounted one changes nothing. |
| CircuitBreaker.CircuitBreaker.TransitionToOpen | packages/breaker/src/circuit-breaker.ts:127-140 | Open, next attempt one reset timeout away, counts kept. |
| CircuitBreaker.CircuitBreaker.TransitionToHalfOpen | packages/breaker/src/circuit-breaker.ts:142-154 | Half-open, counts zero. |
| CircuitBreaker.CircuitBreaker.TransitionToClosed | packages/breaker/src/circuit-breaker.ts:156-167 | Closed, counts zero, no next attempt. |
| CircuitBreaker.CircuitBreaker.Reset | packages/breaker/src/circuit-breaker.ts:169-178 | The initial state. |
| CircuitBreaker.CircuitBreaker.ForceOpen | packages/breaker/src/circuit-breaker.ts:180-182 | Opens whatever the state. |
| CircuitBreaker.CircuitBreaker.ForceClosed | packages/breaker/src/circuit-breaker.ts:184-186 | Closes whatever the state. |
| CircuitBreaker.EveryRunKeeps | packages/breaker/src/circuit-breaker.ts:50-186 | In every run, operations ending in any order: open means next attempt = last opening + reset timeout; half-open means zero counts. |
| CircuitBreaker.ClosedBelowThreshold | packages/breaker/src/circuit-breaker.ts:115-122 | Closed means fewer failures than the threshold, for a threshold of at least 1. |
| CircuitBreaker.ClosedBelowThresholdIff | packages/breaker/src/circuit-breaker.ts:115-122 | That holds of all runs if and only if the threshold is at least 1. |
| CircuitBreaker.CountsAre | packages/breaker/src/circuit-breaker.ts:108-167 | In every state the failure and success counts are the counted failures and the successes since the breaker was last closed, half-opened or reset: opening keeps them and a success lowers no failures. |
| CircuitBreaker.StatisticsAre | packages/breaker/src/circuit-breaker.ts:81-113 | The other statistics are the operations started and the times of the last success and the last counted failure since the last reset. |
| CircuitBreaker.HalfOpensIff | packages/breaker/src/circuit-breaker.ts:50-85 | An open breaker becomes half-open exactly at a look or a start no earlier than its last opening plus resetTimeout, and only then starts operations. |
| CircuitBreaker.OpensAtThreshold | packages/breaker/src/circuit-breaker.ts:115-122 | Unforced, a closed breaker opens exactly at the failure that reaches the threshold. |
| CircuitBreaker.OnlyTheseEdges | packages/breaker/src/circuit-breaker.ts:50-125 | Unforced runs move only closed to open, open to half-open (on a look or a start), half-open to open or closed, each for its own cause. |
| CircuitBreaker.StaysGuarded | packages/breaker/src/circuit-breaker.ts:50-186 | From an opening until its time has passed the breaker stays open with that or a later next attempt, late completions notwithstanding. |
| CircuitBreaker.NoStartWhileOpen | packages/breaker/src/circuit-breaker.ts:71-85 | No operation starts between an opening and opening time + reset timeout unless reset or forceClosed intervenes. |
| CircuitBreaker.HalfOpenStartsAll | packages/breaker/src/circuit-breaker.ts:71-85 | A half-open breaker starts every operation it is asked for, until one in flight ends. |
| CircuitBreaker.HalfOpenAdmitsAny | packages/breaker/src/circuit-breaker.ts:71-85 | For every configuration and every k there is a run with k operations in flight in a half-open breaker. |
| TaskQueue.TaskQueue.constructor | packages/worker/src/index.ts:274-277 | Empty and idle; 5 at a time unless given, unclamped. |
| TaskQueue.TaskQueue.Add | packages/worker/src/index.ts:282-297 | Appends the task, then starts as many as fit. |
| TaskQueue.TaskQueue.Clear | packages/worker/src/index.ts:302-307 | Rejects the queued tasks in order; running ones go on. |
| TaskQueue.TaskQueue.SetConcurrency | packages/worker/src/index.ts:333-336 | At least 1; starts as many as now fit. |
| TaskQueue.TaskQueue.Complete | packages/worker/src/index.ts:354-363 | Settles the task, frees its place, starts as many as fit. |
| TaskQueue.TaskQueue.Process | packages/worker/src/index.ts:345-351 | The starting loop, with a task that throws at once settled inside it. |
| TaskQueue.TaskQueue.RunTask | packages/worker/src/index.ts:353-364 | A task that throws at once is settled and the loop runs again before it returns; any other becomes active. |
| TaskQueue.PumpFills | packages/worker/src/index.ts:345-351 | After the loop the queue is empty or the limit is reached. |
| TaskQueue.Repump | packages/worker/src/index.ts:345-364 | The nested loops of tasks that throw at once do what one loop does. |
| TaskQueue.StartsWithinLimit | packages/worker/src/index.ts:346-349 | The loop leaves more running than before only up to the limit. |
| TaskQueue.EventKeeps | packages/worker/src/index.ts:282-364 | Every event keeps: no task in two places, tasks started in the order added, cleared and settled tasks accounted for, and a nonempty queue only at the limit. |
| TaskQueue.EveryRunConserves | packages/worker/src/index.ts:282-364 | So in every run. |
| TaskQueue.ExactlyOnePlace | packages/worker/src/index.ts:282-364 | Every added task is in exactly one of queued, running and settled, and nothing else is. |
| TaskQueue.SettledAs | packages/worker/src/index.ts:282-364 | In every run a task is resolved if and only if its call resolved, rejected if and only if its call rejected or it was started and threw at once, and rejected as cleared if and only if a clear found it queued. |
| WorkerPool.WorkerPool.constructor | packages/worker/src/index.ts:61-69 | Idle workers as many as asked for, else as the hardware offers, else 4; none outside the main thread. |
| WorkerPool.WorkerPool.Run | packages/worker/src/index.ts:74-93 | Rejected at once after terminate; otherwise a new task goes to the first idle worker, or waits; if its message cannot be posted the promise is rejected and the worker stays busy with it. |
| WorkerPool.WorkerPool.OnMessage | packages/worker/src/index.ts:164-179 | Settles the worker's task with the result or error, frees the worker, starts the next waiting task; tells when posting that one throws out of the handler. |
| WorkerPool.WorkerPool.SettlePromise | packages/worker/src/index.ts:82-92 | A promise is settled once; settling it again does nothing. |
| WorkerPool.WorkerPool.OnError | packages/worker/src/index.ts:181-197 | Rejects the worker's task, replaces the worker in place, starts the next waiting task. |
| WorkerPool.WorkerPool.Terminate | packages/worker/src/index.ts:98-105 | Rejects every waiting task and accepts no more. |
| WorkerPool.WorkerPool.TerminateDone | packages/worker/src/index.ts:116-118 | The worker list is emptied. |
| WorkerPool.WorkerPool.FindIdle | packages/worker/src/index.ts:204-204 | The first idle worker in list order. |
| WorkerPool.WorkerPool.AssignTask | packages/worker/src/index.ts:202-211 | To the first idle worker, else to the end of the queue. |
| WorkerPool.WorkerPool.ExecuteTask | packages/worker/src/index.ts:213-222 | The worker is busy with that task, also when posting its message throws. |
| WorkerPool.WorkerPool.ProcessNext | packages/worker/src/index.ts:224-234 | At most one waiting task is started, none after terminate. |
| WorkerPool.FirstIdleIs | packages/worker/src/index.ts:204-204 | A worker found is the first idle one of the list; none found means all are busy. |
| WorkerPool.EventKeeps | packages/worker/src/index.ts:74-234 | Every event keeps: each accepted task waiting, on one worker, or settled once, a waiting one nowhere else, and one that is both settled and on a worker could not be posted; unless terminated, tasks started in the order accepted and waiting only while all workers are busy. |
| WorkerPool.EveryRunKeeps | packages/worker/src/index.ts:74-234 | So in every run, across worker errors, replacements and messages that cannot be posted. |
| WorkerPool.NextOnePlaceIff | packages/worker/src/index.ts:74-234 | From a state with every accepted task in exactly one place, queued, on one worker or settled, an event leads to another such state if and only if it is not a run of a live pool that hands a task which cannot be posted to an idle worker. |
| WorkerPool.OnePlaceIff | packages/worker/src/index.ts:74-234 | In a run every accepted task is in exactly one place, in all states, if and only if no run call hands a task that cannot be posted straight to an idle worker; waiting tasks that cannot be posted do no harm to that. |
| WorkerPool.RunDeliversIff | packages/worker/src/index.ts:74-234 | In a run all tasks are in one place and every task on a worker has been posted to it, in all states, if and only if every task ever handed to a worker can be posted. |
| WorkerPool.EveryRunDelivers | packages/worker/src/index.ts:74-234 | So if all tasks can be posted, every run keeps each accepted task in exactly one place. |
| WorkerPool.SettledAs | packages/worker/src/index.ts:74-234 | In every run a task is settled with an outcome if and only if an event settled it so: resolved or failed by a result or an error message from the worker it was on, errored by that worker failing, terminated by a terminate that found it waiting, uncloneable by a run that found an idle worker for it. |
| WorkerPool.ReplaceIs | packages/worker/src/index.ts:188-192 | The new worker takes the place of the failed one in the list, idle, and all others keep theirs. |
| WorkerPool.StuckUntilError | packages/worker/src/index.ts:164-222 | A worker that was given a task it could not be posted keeps it until the worker itself fails. |
| WorkerPool.TerminateSettlesIff | packages/worker/src/index.ts:98-118 | Terminate settles exactly the waiting tasks; it leaves every accepted task settled if and only if no worker holds an unsettled one, which where each task is in one place means that no worker is busy. |
| Luhn.LuhnCheck | packages/validation/src/validation.ts:390-404 | Accepts exactly the strings of digits, of any length, whose Luhn sum is a multiple of 10. |
| Luhn.SumFromLeft | packages/validation/src/validation.ts:391-403 | Summing from the right, as the loop does, gives the Luhn sum. |
| Luhn.WeightDistinct | packages/validation/src/validation.ts:396-400 | Doubling and reducing keeps different digits different modulo 10. |
| Luhn.SubstitutionRejected | packages/validation/src/validation.ts:390-404 | Changing one digit of a valid number makes it invalid. |
| Luhn.SwapPassesIff | packages/validation/src/validation.ts:390-404 | Swapping two neighbours of a valid number goes unnoticed if and only if they are equal or are 0 and 9. |
| Luhn.UniqueCheckDigit | packages/validation/src/validation.ts:390-404 | Every payload has exactly one check digit. |

## Left out

- FlattenObject.WriteEntry: the source walks `current` down and writes into nested objects in place; the model keeps the walked chain and rebuilds it, so aliasing between the nested objects is not modelled.
- ConfigDiff.ComputeDiff: configurations are JSON values; comparing atoms stands for comparing their JSON text, and entries holding `undefined` or class instances are not modelled.
- Buckets.TokenBucket.Consume: exact real arithmetic in place of floating point, and a `windowMs` other than 0, where the source computes with infinities.
- Windows.FixedWindow.Consume: for a `windowMs` other than 0, for which the source gets NaN as the window start.
- PriorityQueue.PriorityQueue.SinkDown: stated for the root, the only position the source calls it on.
- Bloom.CountingBloomFilter.Deserialize: for at least one bit, as every constructed filter has. The floating-point formulas behind the sizes are arbitrary functions.
- HashRing.ConsistentHash.Pick: the random key used when none is given is an argument, and health is an arbitrary predicate where the source's answers true.
- HashRing.MinimalDisruption: for a new instance that is healthy, as every instance is in the source; an unhealthy one that takes over a colliding point sends that point's keys on to the next healthy owner.
- HashRing.SwapIsStableIff: for healthy instances, as every instance is in the source.
- HashRing.OrderIsIrrelevantIff: for healthy instances, as every instance is in the source.
- WeightedRoundRobin.WeightedRoundRobin.constructor: starts from a balancer fed by updateInstances; construction with a live discovery calls updateInstances before the subclass fields exist. Weights that do not parse to an integer are not modelled, and health is the source's constant true.
- WeightedRoundRobin.PickGreatest: for nonnegative weights; PickEarliest says who is picked for any.
- CircuitBreaker.CircuitBreaker.OnFailure: the `isFailure` callback is an argument of the event; what a fallback returns, listeners, `onStateChange` and logging are not modelled.
- Semaphore.StepKeeps: runAll's workers go on after one of them throws, as in the source; the rejection that reaches the caller of runAll is not modelled.
- WorkerPool.WorkerPool.OnMessage: an exception that posting the next task throws out of the handler is reported, and what the process then does is not modelled; a worker's code and its messages are events.
- TaskQueue.TaskQueue.RunTask: the `task-complete` event (packages/worker/src/index.ts:361) is not modelled, nor a task function that calls `add`, `clear` or the concurrency setter while it is being started.
- MapReduce.MapReduce: calls of `map` and `reduce` that throw before returning are not modelled.
- LruCache.Cache: `entries` and the `expired` event are not modelled.
- The `get` methods of the rate-limit algorithms, which use fixed values of 60000 ms and 100, and the sliding-window (timestamp) variant.
- The other balancers (round-robin, least connections, two choices, random, IP hash), addInstance and removeInstance.
- FNV hash bits, false-positive rates, JSON text, property order of objects, prototype-named keys.
- The module metadata lookup and the instantiation after ordering; packages/http/src/application.ts:91-113 orders modules by the same algorithm.
- Bulkhead, RPC connection pool, timer-based circuit breaker, ConcurrentMap, HTTP, gateway, storage, tracing and discovery back ends: I/O or wrappers over libraries.
- Queue, Stack, EnhancedSet, Ring, counters, registries and statistics getters: they would only add easy members.
