# Proofs about the media backend's stateful cores

This project models the parts of the backend that carry invariants, one module per part, and proves
what they promise. Protocols between goroutines or processes (the two rate limiters, the keyed mutex,
the two caches, the parallel copy) are step systems: an action is one atomic access, actions of any
number of participants interleave freely, time is part of the state and may pass between any two
actions, processes may crash and commands may fail where the code lets them. Their theorems are about
every run. Code that changes data step by step (the shuffle, the filter compiler, the collection, the
session table, the batch functions, the part loop, the search document, the achievement loops) is
imperative, and each method is proved against a specification function about which the laws are proved.

| file | what it models |
|---|---|
| Runs.dfy | runs of a step system and their invariants |
| KeyedLock.dfy | the reference-counted table of mutexes behind `utils.Lock`, refined to an abstract keyed mutex |
| LocalLimiter.dfy, LimiterCalls.dfy | the in-memory fixed-window limiter, on all keys at once, and what its callers get |
| RedisLimiter.dfy, RedisCalls.dfy | the INCR / EXPIRE / TTL limiter with crashes and lost commands, and what its callers get |
| Cursors.dfy | the seeded block shuffle in place, and paging over it |
| Text.dfy, JsonLogic.dfy | JSON-logic filters compiled to SQL predicates and joins |
| JsonLogicMeaning.dfy, Placeholders.dfy | what filters and three-valued SQL predicates mean; compiling keeps the meaning; what becomes of text pasted into a statement |
| JsonLogicOperators.dfy | what each operator selects, said outright |
| RemoteCache.dfy, RemoteCalls.dfy | `GetOrCreate` over Redis under a leased lock |
| MemoryCache.dfy, MemoryCalls.dfy | `GetOrSet` over the process-wide cache under the keyed mutex |
| Collections.dfy | the sliding-TTL collection, its sweeper and its callbacks |
| CollectionRaces.dfy | the same on one key, access by access, with the races of its callbacks |
| Loaders.dfy | batch loaders and the zero-padded row source |
| Sessions.dfy | refresh-token sessions rotated by compare-and-swap |
| CopyObjects.dfy | byte ranges of a multipart copy |
| Paths.dfy, IngestPlan.dfy | Go's path functions, and which objects a delivery copies and deletes |
| Ingest.dfy | the parallel copy and the delete step |
| SearchFields.dfy | localized fields flattened into a search document and read back |
| Achievements.dfy | the counting loops and the loop that stores achievements |

Libraries appear by short contracts, written into the model where they are used: go-generics-cache
treats an expired entry as absent (at the very instant of expiry both answers are allowed); redislock
grants a lock that nobody holds and releases only on a matching token; an empty `And` of squirrel is
true and an empty `Or` false, `Eq` with a list is `IN`, with nil `IS NULL`, its `Where` leaves a query
alone when the predicate is nil, and its dollar format rewrites every question mark of a statement's
text; `LoadMany` of dataloader gives no error slice when no key failed, else one with a slot per key,
empty for keys that succeeded; `DeleteObjects` may remove any part of its list whether or not it
reports an error; `rand.Shuffle` is a sequence of swaps fixed by seed and length; Redis and SQL
commands are atomic, and `token_hash` is UNIQUE (migrations/00360_admin_sessions.sql:5-16).

Where the code does not do what its documentation or the obvious reading says, the model follows the
code and the exact condition is proved:

- `ShuffleSegmentedArray` with a negative random factor need not end, even when segment and random part
  together are positive (`Cursors.TerminatesIff`, `Cursors.PositiveBlockMayNotEnd`).
- Pages join up exactly at block boundaries (`Cursors.PageableIffAligned`).
- The last byte range of a multipart copy names one byte too many when the size is one short of a
  multiple of the part size (`MultipartCopy.CoversExactlyIff`); the constant is commented as a number
  of bits in the source and is a number of bytes.
- The zero rows that the collection query adds reach the list of key 0 (`Loaders.PaddingVisibleIff`).
- A localized entry survives the round trip through a search document exactly when its language code
  has no underscore (`SearchFields.ReadableIsAllIff`).
- `GetMany` returns the error of the first key: when that key is there and another fails, it returns
  neither items nor an error (`Loaders.FailureReportedIff`, `Loaders.LostFailure`).
- Listed files with equal base names get one path, and of two such files one is then lost
  (`Ingest.LosesNothingIffNames`, `Ingest.EqualBaseNamesLose`).
- Two requests, or a request and the janitor, that meet in the collection can run a callback twice or
  lose it (`CollectionRaces.DoubleFire`, `CollectionRaces.LostCallback`, and the condition
  `CollectionRaces.FreshRunsFireOnce`).
- A test on NULL is false even if it is a negation (`JsonLogicMeaning.NegationsAreComplementsIff`).
- A two-part variable goes into the SQL text as it is, column or not
  (`JsonLogicMeaning.TwoPartColumnIff`, `JsonLogicMeaning.PastedText`).
- The window of the Redis limiter is fixed except for processes that saw the counter before it had an
  expiry and send their EXPIRE late (`RedisLimiter.WindowFixedIff`, `RedisLimiter.StragglerWitness`).
- A question mark in a variable name, an array literal or an interval of a filter is taken for a
  placeholder, one in a constant that is bound is not (`Placeholders.CleanFilterKeptIff`,
  `Placeholders.MarkedConstants`).
- A filter whose first deciding key is a comparison with an operand that is no array compiles to nil, and
  the query then goes without a WHERE and selects everything; below "and" and "or" nil cannot be
  rendered (`JsonLogicMeaning.QueryMeaning`, `JsonLogicMeaning.MalformedSelectsAll`).

## Model

| member | source | states |
|---|---|---|
| LocalLimiter.LiveCounterKept | backend/ratelimit/limit.go:69-90 | in every run, no step takes a live counter out of the cache, replaces it or moves its expiry: not a refused hit, not a racing creation, only the passing of its window |
| LocalLimiter.FollowsKeyedMutex | backend/ratelimit/limit.go:83-89 | every step of the limiter is a step of the abstract keyed mutex that KeyedLock proves, on the key of its goroutine, or touches no owner |
| LocalLimiter.HitsLandOnLiveCounters | backend/ratelimit/limit.go:77-92 | every hit lands on a counter of its own key that was live, within five minutes of its creation, at a moment during that call |
| LocalLimiter.CreationsAWindowApart | backend/ratelimit/limit.go:47-49 | two counters of one key are created at least five minutes apart, however many goroutines race |
| LimiterCalls.CounterAdmitsExactly | backend/ratelimit/limit.go:59-67 | if all callers pass one limit for the key of a counter, the counter admits exactly min(hits, limit) of its calls: no hit is lost and none slips past |
| LocalLimiter.AdmitsMin | backend/ratelimit/limit.go:91-91 | a log whose counts are 1, 2, 3, ... per counter has min(hits, max(limit, 0)) admitted hits on each |
| LocalLimiter.AdmitsAtMost | backend/ratelimit/limit.go:91-91 | calls on one counter may pass different limits: it admits no more than the largest of them, and no more than its hits |
| LocalLimiter.TwoCountersPerWindow | backend/ratelimit/limit.go:69-74 | the calls on a key that fetch their counter within one interval of the window's length use at most two counters |
| LimiterCalls.WindowBound | backend/ratelimit/limit.go:47-92 | if no caller passes more than `limit` for a key, then of the calls on it that fetched their counter in any half-open five minutes at most 2 * limit are admitted |
| LimiterCalls.RefusalHasCause | backend/ratelimit/limit.go:69-74 | a refused call is, with more than its limit of calls on its key, within five minutes of one instant, so trying on does not block a client for ever |
| LimiterCalls.HitsBelongToCalls | backend/ratelimit/limit.go:77-92 | every finished call is the call of one beginning, with the key, the limit and the time passed there, and no two are of the same |
| LimiterCalls.AllowOnLiveCounter | backend/ratelimit/limit.go:78-91 | a call that runs alone while a counter is live hits that counter and is admitted exactly if its hit is within the limit it passed; cache and lock stay as they are |
| LimiterCalls.AllowUpToCreating | backend/ratelimit/limit.go:78-85 | a call that runs alone without a live counter misses twice and takes the lock of its key in between |
| LimiterCalls.AllowWithoutCounter | backend/ratelimit/limit.go:86-91 | it then makes a counter for five minutes, frees the key, hits the counter first and is admitted exactly if the limit is positive |
| LimiterCalls.RecheckFinds | backend/ratelimit/limit.go:84-89 | a second look that finds a counter takes that one and frees the key |
| LimiterCalls.LooksAndSweeps | backend/ratelimit/limit.go:72-74 | a look finds a counter up to its expiry and misses it from then on |
| LimiterCalls.SweepTakesExpired | backend/ratelimit/limit.go:57-57 | the cache's own sweeper takes out expired counters and nothing else |
| LimiterCalls.OneCallAtATime | backend/ratelimit/limit.go:83-83 | a goroutine waits for the lock exactly while its key is held |
| LimiterCalls.Clock | backend/ratelimit/limit.go:47-49 | the time of a run is what its ticks add up to |
| KeyedLock.MutualExclusion | backend/utils/locks.go:31-58 | no two goroutines hold one key at once, though entries are dropped and made anew in between |
| KeyedLock.TableIsKeysInUse | backend/utils/locks.go:20-30 | the table holds exactly the keys that some goroutine holds, waits for or is releasing: nothing leaks |
| KeyedLock.BlockedOnlyByOwnKey | backend/utils/locks.go:42-43 | a waiting goroutine can take its lock if and only if nobody holds its own key |
| KeyedLock.RefinesKeyedMutex | backend/utils/locks.go:31-58 | every step of the table is a step of a plain keyed mutex: take a free key, free a key one holds, or no change |
| KeyedLock.LockAlone | backend/utils/locks.go:31-58 | on a key that nobody uses, an entry is made, held, freed and dropped, and the table is as before |
| KeyedLock.LockShared | backend/utils/locks.go:31-44 | on a key in use the entry is shared, and can be taken exactly if nobody holds it |
| KeyedLock.UnlockShared | backend/utils/locks.go:46-57 | freeing a shared key leaves its entry to the others |
| RedisCalls.PassedAtMostLimit | backend/ratelimit/limit.go:20-45 | during the life of one counter at most max(limit, 0) calls return nil, whatever crashes, fails or expires, if no caller passes more than `limit` |
| RedisCalls.ExactWhenAllReturned | backend/ratelimit/limit.go:23-26 | when all calls that incremented a counter have returned and all callers pass one limit, exactly min(hits, limit) of them returned nil |
| RedisCalls.ResultsBelongToCalls | backend/ratelimit/limit.go:28-45 | every returned call is the call of one beginning, with the limit passed there, and no two are of the same |
| RedisCalls.KeyOnAbsentKey | backend/ratelimit/limit.go:28-45 | alone on an absent key: a counter of one hit that expires when the window is over, and nil exactly if the limit is positive |
| RedisCalls.KeyOnDatedCounter | backend/ratelimit/limit.go:28-45 | alone on a counter with an expiry: one more hit, the expiry as it was, and nil exactly if the hit is within the limit |
| RedisCalls.KeyOnUndatedCounter | backend/ratelimit/limit.go:36-40 | alone on a counter without expiry: one more hit, and the counter expires when the window is over |
| RedisCalls.ExpiryIsKept | backend/ratelimit/limit.go:35-35 | a counter is there until its expiry and gone from then on |
| RedisCalls.IncrReaches | backend/ratelimit/limit.go:30-30 | INCR adds one to the counter that is there, or makes a new one, and its answer is that counter's |
| RedisCalls.CommandsInPlace | backend/ratelimit/limit.go:28-45 | each command is sent at its own place in the code and nowhere else |
| RedisCalls.FailedIncr | backend/ratelimit/limit.go:30-33 | a failed INCR ends the call with its error, and may have counted |
| RedisCalls.FailedTtlAndExpire | backend/ratelimit/limit.go:34-40 | a failed TTL or EXPIRE does not end the call, and the EXPIRE may have been applied |
| RedisCalls.CrashAndEviction | backend/ratelimit/limit.go:37-38 | a process may die at any point of its call, and the key may be evicted at any time |
| RedisLimiter.DistinctCounts | backend/ratelimit/limit.go:30-33 | the calls that returned from one counter number as many as the different counts that INCR gave them |
| RedisLimiter.CleanReturnLeavesExpiry | backend/ratelimit/limit.go:34-40 | at any time after a call without a failed command has returned, its counter has an expiry or is gone |
| RedisLimiter.CompletedCallRecovers | backend/ratelimit/limit.go:34-40 | from every reachable state, a call that completes without a Redis failure of its own leaves its counter with an expiry, even if the creator died before its EXPIRE |
| RedisLimiter.ExpiryStays | backend/ratelimit/limit.go:34-40 | no later command takes an expiry off a living counter |
| RedisLimiter.WindowFixedIff | backend/ratelimit/limit.go:20-40 | from any reachable state in which the counter has an expiry, every continuation leaves that expiry alone while the counter lives if and only if no process is already about to send an EXPIRE that would move it; nobody new comes there |
| RedisLimiter.StragglerWitness | backend/ratelimit/limit.go:34-40 | the fixed window can be stretched: a second call that saw no expiry and sends its EXPIRE late moves the expiry of a live counter from 100 to 199 |
| Cursors.SwapInSlice | backend/cursors/shuffle.go:9-11 | the swap exchanges two entries of the slice and writes nothing outside it |
| Cursors.Shuffle | backend/cursors/shuffle.go:7-14 | the slice becomes its seeded shuffle in place, the rest of the array is untouched |
| Cursors.OrderIndependentOfContents | backend/cursors/shuffle.go:8-11 | the reordering is one permutation of indices decided by seed and length, whatever the elements are |
| Cursors.ShuffleRound | backend/cursors/shuffle.go:30-37 | one round shuffles one block through the shared slice: the finished blocks stay, the rest of the source is still the original |
| Cursors.ShuffleBlocks | backend/cursors/shuffle.go:22-42 | the loop ends, and its result and the mutated source both equal the block-by-block specification |
| Cursors.ShuffleSegmentedArray | backend/cursors/shuffle.go:16-42 | the returned list and the final contents of the source both equal the source cut into blocks, each shuffled with the same seed, of a segment plus e entries, where e is factor times segment length without its fraction |
| Cursors.TruncIff | backend/cursors/shuffle.go:28-28 | the conversion to int is the whole number next to zero: e <= x < e + 1 for x >= 0, e - 1 < x <= e below |
| Cursors.WholeFactor | backend/cursors/shuffle.go:18-28 | a whole factor k makes blocks of (k + 1) segments |
| Cursors.TerminatesIff | backend/cursors/shuffle.go:26-39 | the loop comes to a normal end if and only if the random part is not negative and the block is not empty (or the list is empty with an empty block) |
| Cursors.PositiveBlockMayNotEnd | backend/cursors/shuffle.go:26-39 | segment length 10, factor -0.5 and 12 entries: the block length is 5 and the loop never ends |
| Cursors.SegmentedPermutes | backend/cursors/shuffle.go:16-42 | the result holds the same entries with the same multiplicities as the input |
| Cursors.ElementsStayInBlock | backend/cursors/shuffle.go:16-18 | every block of the result holds exactly the entries of that block of the input |
| Cursors.SegmentedSuffix | backend/cursors/shuffle.go:30-38 | because every block reuses the seed, the rest of a shuffle from a block boundary is the shuffle of the rest |
| Cursors.AlignedIffMultiple | backend/cursors/shuffle.go:26-38 | the block boundaries are exactly the multiples of the block length |
| Cursors.PageableIffAligned | backend/cursors/randomized_cursor.go:70-91 | an offset can be paged from, for every source of randomness, seed and list, if and only if it is a block boundary or the end |
| Cursors.UnalignedPageDiffers | backend/cursors/randomized_cursor.go:70-91 | at any other offset, draws that exchange the block's first entry with the one at the offset make the page differ from the rest of the feed |
| Cursors.GeneratorTellsPagesApart | backend/cursors/shuffle.go:7-14 | such draws are draws of math/rand from a sequence of 32-bit generator values, each taken at once, for every list shorter than 2^31 |
| Cursors.ApplyRandomizedCursorTo | backend/cursors/randomized_cursor.go:69-82 | a fresh copy of the suffix from the cursor on, empty past the end, a panic exactly on a negative index; the caller's array is not written |
| Cursors.ApplyRandomizedCursorToSegments | backend/cursors/randomized_cursor.go:84-91 | the feed of the cursor, or the panic on a negative index, with the caller's array untouched although the shuffle works in place |
| Cursors.FeedPermutes | backend/cursors/randomized_cursor.go:69-91 | every feed, seeded or not, holds exactly the entries from its cursor on, with their multiplicities |
| Cursors.PagingRefinesFeed | backend/cursors/randomized_cursor.go:37-91 | the feed from a block-aligned cursor is the rest of the feed from 0, and what was shown before is exactly the front of the list: aligned pages lose and repeat nothing |
| JsonLogic.Query.GetSQLStringFromFilter | backend/jsonlogic/filter.go:89-163 | the loop over the keys returns the specified predicate and appends to joins exactly the tables of the two-part variables at comparison leaves, left to right |
| JsonLogic.Query.CompileChildren | backend/jsonlogic/filter.go:95-102 | the and/or loop compiles the object children in order, skips the others, and adds their joins in order |
| JsonLogic.Query.FilterFromField | backend/jsonlogic/filter.go:91-156 | one key either ends the loop with its predicate or is skipped, by the same tests as the switch |
| JsonLogic.GetSQLQueryFromFilter | backend/jsonlogic/filter.go:165-170 | filter and joins of the finished query, from an empty start |
| JsonLogicMeaning.CompilePreservesMeaning | backend/jsonlogic/filter.go:89-163 | for every filter, database and row: the compiled predicate is a valid statement if and only if the filter is accepted, and then selects the row if and only if the filter holds of it |
| JsonLogicMeaning.QueryMeaning | backend/items/collection/filter.go:114-145 | what the query selects: every row if the filter drops the WHERE, the rows of which it holds if it is accepted; it fails exactly on all other filters |
| JsonLogicMeaning.NilIff | backend/jsonlogic/filter.go:116-156 | a filter compiles to no condition at all exactly when its first deciding key is a comparison whose operand is no array |
| JsonLogicMeaning.MalformedSelectsAll | backend/jsonlogic/filter.go:116-156 | {"==": "x"} selects every row and holds of none |
| JsonLogicMeaning.LeafMeaning | backend/jsonlogic/filter.go:116-155 | comparison leaves keep their meaning, malformed ones are false |
| JsonLogicOperators.EqualSelects | backend/jsonlogic/filter.go:43-46 | "==" and "in" against a constant select the rows whose value is not NULL and equal |
| JsonLogicOperators.EqualNullSelects | backend/jsonlogic/filter.go:43-46 | against null, the rows whose value is NULL |
| JsonLogicOperators.InSelects | backend/jsonlogic/filter.go:43-46 | against a list, the rows whose value is not NULL and equals an element |
| JsonLogicOperators.UnequalSelects | backend/jsonlogic/filter.go:47-50 | "!=" against a constant selects the rows whose value is not NULL and differs |
| JsonLogicOperators.UnequalNullSelects | backend/jsonlogic/filter.go:47-50 | against null, the rows whose value is not NULL |
| JsonLogicOperators.NotInSelects | backend/jsonlogic/filter.go:47-50 | against a list, all rows if it is empty, else those whose value is not NULL and differs from all elements, none of which may be null |
| JsonLogicOperators.LessSelects | backend/jsonlogic/filter.go:51-71 | "<" and ">" select the rows whose value is not NULL and stands so to the constant |
| JsonLogicOperators.LessOrEqualSelects | backend/jsonlogic/filter.go:58-78 | "<=" and ">=" likewise, equality included |
| JsonLogicOperators.RelativeSelects | backend/jsonlogic/filter.go:28-71 | against "relative:i" and "relativeneg:i" they compare with now plus and minus the interval |
| JsonLogicOperators.RelativeOrEqualSelects | backend/jsonlogic/filter.go:28-78 | and so do "<=" and ">=" |
| JsonLogicOperators.IsSelects | backend/jsonlogic/filter.go:79-82 | "is" selects the rows whose value is not NULL and contains the array of that element, "!is" those whose value does not |
| JsonLogicOperators.CombinationsSelect | backend/jsonlogic/filter.go:92-115 | "and" selects the rows that all its objects select, "or" those that one of them selects |
| JsonLogicOperators.EmptyCombinations | backend/jsonlogic/filter.go:92-115 | without a list, "and" selects all rows and "or" none |
| JsonLogicOperators.MalformedSelectsNothing | backend/jsonlogic/filter.go:116-162 | a key that is no operator, a test of the wrong arity and one without a variable select nothing |
| JsonLogicOperators.VarNameIff | backend/jsonlogic/filter.go:130-144 | the variable of an operand is the string under its "var" key, whatever other keys it has |
| JsonLogicOperators.OtherOperators | backend/jsonlogic/filter.go:41-87 | "notin" and "@>" are synonyms, every other operator is unknown |
| JsonLogicOperators.PlainVariable | backend/jsonlogic/filter.go:133-138 | a plain variable is the column of that name of t, and joins no table |
| JsonLogicOperators.JoinedVariable | backend/jsonlogic/filter.go:133-136 | a variable with one dot is that column of that table, and joins the table |
| JsonLogicMeaning.TestMeaning | backend/jsonlogic/filter.go:41-87 | each recognised operator, under three-valued logic, selects exactly the rows whose value passes the test |
| JsonLogicMeaning.NegationsAreComplementsIff | backend/jsonlogic/filter.go:43-50 | "!=" and "!is" are the complements of "==" and "is" exactly on values that are not NULL (against null and the empty list always, against a list with null only if an element is equal); elsewhere both are false |
| JsonLogicMeaning.EqualityMeaning | backend/jsonlogic/filter.go:43-50 | equality and inequality against null, lists and constants: IS NULL, IN with its empty and null cases, and NOT IN |
| JsonLogicMeaning.OrderingMeaning | backend/jsonlogic/filter.go:28-39 | orderings compare with the constant, or with now shifted by the interval of a relative value |
| JsonLogicMeaning.InMeaning | backend/jsonlogic/filter.go:43-50 | a membership is TRUE when an element is equal, FALSE when the list is empty or all elements differ and none is null, else unknown |
| JsonLogicMeaning.ConjunctionMeaning | backend/jsonlogic/filter.go:92-103 | "and" is the conjunction of its object children, true without any |
| JsonLogicMeaning.DisjunctionMeaning | backend/jsonlogic/filter.go:104-115 | "or" is the disjunction of its object children, false without any |
| JsonLogicMeaning.PruningShrinksSelection | backend/jsonlogic/filter.go:89-163 | the language is monotone: replacing any subtrees by statements that imply them on a row selects the row only if it was selected before |
| JsonLogicMeaning.PrunedMeaning | backend/jsonlogic/filter.go:89-163 | the same for the meaning of filters, and an accepted filter stays accepted |
| JsonLogicMeaning.InvalidIsPruned | backend/jsonlogic/filter.go:120-123 | everything that compiles to the false predicate, be it without a recognised key or of the wrong arity, may replace any subtree |
| JsonLogicMeaning.MapOrderIrrelevant | backend/jsonlogic/filter.go:90-91 | with at most one key that ends the loop, predicate and joins do not depend on Go's map order |
| JsonLogicMeaning.FirstSignificantDecides | backend/jsonlogic/filter.go:90-157 | otherwise the first such key in iteration order decides alone |
| JsonLogicMeaning.RelativeValues | backend/jsonlogic/filter.go:28-39 | exactly the strings "relative:..." and "relativeneg:..." are read as shifted times, by the text behind the prefix |
| JsonLogicMeaning.QuotedColumnsDistinct | backend/jsonlogic/filter.go:133-138 | quoting maps two different one-part variables (without NUL) to different columns |
| JsonLogicMeaning.TwoPartColumnIff | backend/jsonlogic/filter.go:133-136 | a two-part variable goes into the text as it is, and names a column if and only if both parts are SQL names |
| JsonLogicMeaning.PastedText | backend/jsonlogic/filter.go:133-136 | "1=1 OR t.x" is a two-part variable that becomes text and names no column |
| JsonLogicMeaning.OnePartColumnIff | backend/jsonlogic/filter.go:136-138 | any other variable is quoted, and names a column if and only if something stands before its first NUL |
| Placeholders.TextKeptIff | backend/items/collection/filter.go:140-145 | text that is pasted into a statement with dollar placeholders reaches the database unchanged if and only if it has no question mark |
| Placeholders.SingleMark | backend/items/collection/filter.go:140-141 | a single question mark becomes the next placeholder |
| Placeholders.DoubledMark | backend/items/collection/filter.go:140-141 | a doubled one becomes a single one and takes no number |
| Placeholders.DigitsNumber | backend/items/collection/filter.go:140-141 | placeholders are numbered in decimal |
| Placeholders.CleanFilterKeptIff | backend/jsonlogic/filter.go:28-87 | every column, array literal and interval of the compiled filter is kept if and only if, at each test that the compiler reaches, the column's name, the constant of "is" or "!is" and the interval of a relative value have no question mark; constants that are bound may have any |
| Placeholders.MarkedConstants | backend/jsonlogic/filter.go:41-87 | a test of "tags" against "what?" is not clean for "is" and "!is", and clean for every other operator |
| RemoteCache.OneUnexpiredHolder | backend/remotecache/lock.go:12-46 | in every run at most one process is past the lock with an unexpired lease, so at most one is in the factory with one |
| RemoteCache.OnlyHolderReleases | backend/remotecache/lock.go:59-74 | while a holder's lease is unexpired, no release but its own ends it, even a late one of an earlier holder |
| RemoteCache.ReturnedFromFactory | backend/remotecache/cache.go:48-85 | every value returned, even beside a storing error, came from a factory call for the key |
| RemoteCache.CalmRunProducesOnce | backend/remotecache/cache.go:60-85 | in every run in which no lease and no entry runs out or is evicted and no lock request, second look or write fails, at most one factory call succeeds and all calls that return a value return that one |
| RemoteCalls.ReadsAreFresh | backend/remotecache/cache.go:75-84 | in every run, what the first or the second look reads was made by a factory call with some time to live, stored by that call at some time, and its time is not over |
| RemoteCalls.StoredStays | backend/remotecache/cache.go:83-83 | a stored value is there until its time is over, unless it is evicted or another is stored |
| RemoteCalls.LeaseLastsFiveSeconds | backend/remotecache/lock.go:12-21 | the lock is obtained only when free, and for five seconds |
| RemoteCalls.LeaseRunsOut | backend/remotecache/lock.go:13-14 | a lease ends when its time is over and not before |
| RemoteCalls.LockIsExclusive | backend/remotecache/lock.go:30-46 | while a lease is held the lock is not to be had |
| RemoteCalls.CallOnStoredValue | backend/remotecache/cache.go:50-53 | alone on a stored value: it is returned at once |
| RemoteCalls.CallUpToFactory | backend/remotecache/cache.go:60-79 | alone without one: the lock is taken, the store looked at again, the factory asked |
| RemoteCalls.CallWithFactory | backend/remotecache/cache.go:79-84 | what the factory made is stored with its time to live and returned, and the lock is released |
| RemoteCalls.CallWithFailingFactory | backend/remotecache/cache.go:79-82 | a failing factory stores nothing, its error is returned, and the lock is released |
| RemoteCalls.CallWithoutLock | backend/remotecache/cache.go:61-84 | a call that does not get the lock does the work without it and releases nobody's lease |
| RemoteCalls.FailedReads | backend/remotecache/cache.go:54-84 | a failed first look is the call's error, a failed second look leads to the factory, a failed write returns the value with an error |
| RemoteCalls.LostLease | backend/remotecache/lock.go:13-14 | a lock request that fails after it was applied leaves a lease that only time ends |
| RemoteCalls.LostWrite | backend/remotecache/cache.go:83-84 | a write that fails may have been applied |
| RemoteCalls.CrashesAndEviction | backend/remotecache/lock.go:13-14 | a process may die at any point, with its lease left to run out; a failed release does not fail the call |
| MemoryCache.SingleFlight | backend/memorycache/memorycache.go:66-80 | at most one goroutine is between taking and freeing the key, hence in the factory, at a time |
| MemoryCache.FollowsKeyedMutex | backend/memorycache/memorycache.go:66-67 | every step of a call is a step of the abstract keyed mutex that KeyedLock proves, or touches no owner |
| MemoryCache.EntersFactoryOnMiss | backend/memorycache/memorycache.go:69-74 | the factory is entered only by the holder of the key, from a re-check that finds no live value of the wanted type |
| MemoryCache.ReturnsAreSound | backend/memorycache/memorycache.go:31-48 | every successful return has the wanted type and is a factory result or a stored value, though callers of other types share the key |
| MemoryCache.UndisturbedRunMakesOnce | backend/memorycache/memorycache.go:60-80 | in every run in which all callers want one type, nobody else writes the key and no entry runs out or is evicted, at most one factory call succeeds and all callers get its value |
| MemoryCalls.ReadsAreFresh | backend/memorycache/memorycache.go:31-48 | in every run, what a look finds was stored by a call or by other code, has the wanted type, and its time to live is not over |
| MemoryCalls.MissesHaveCause | backend/memorycache/memorycache.go:31-48 | a look misses only if there is no entry, its type is another, or its time to live is over |
| MemoryCalls.CallOnStoredValue | backend/memorycache/memorycache.go:61-65 | alone on a live value of the type: it is returned at once |
| MemoryCalls.CallUpToFactory | backend/memorycache/memorycache.go:66-74 | alone without one: the key is taken, the cache looked at again, the factory asked |
| MemoryCalls.RegetFinds | backend/memorycache/memorycache.go:69-72 | a second look that finds a value returns it and frees the key, without the factory |
| MemoryCalls.CallWithFactory | backend/memorycache/memorycache.go:74-79 | what the factory made is stored and returned, and the key is freed |
| MemoryCalls.CallWithFailingFactory | backend/memorycache/memorycache.go:74-77 | a failing factory stores nothing, and the key is freed all the same |
| MemoryCalls.WaitsAndTies | backend/memorycache/memorycache.go:66-67 | a call waits while another holds the key; at the instant of expiry a value may be found or not |
| Collections.Collection.constructor | backend/loaders/collection.go:17-27 | an empty collection |
| Collections.Collection.Set | backend/loaders/collection.go:49-62 | the table gains or replaces exactly that entry, in a new cell of its own |
| Collections.Collection.Get | backend/loaders/collection.go:65-79 | as one step: the answer of the table; an expired entry is deleted and its callback runs, a live one starts its time anew |
| Collections.Collection.Delete | backend/loaders/collection.go:82-91 | as one step: the entry leaves the table and its callback runs |
| Collections.Collection.DeleteExpired | backend/loaders/collection.go:94-105 | as one step: exactly the expired entries are deleted, each once, in some order |
| Collections.GetMeetsSpecification | backend/loaders/collection.go:64-79 | after any history of sets, gets, deletes and sweeps, Get answers as the sliding-TTL specification of its key says |
| Collections.SweepsTransparent | backend/loaders/janitor.go:35-52 | leaving out all sweeps, wherever they stand in a history, changes no answer of Get |
| Collections.ReplayAgrees | backend/loaders/collection.go:49-105 | the table holds value and expiry of the specification, except that expired entries may be gone |
| Collections.CallbackLedger | backend/loaders/collection.go:70-104 | when operations are atomic, every registered callback has run, or its entry is stored, or its entry was overwritten: exactly one of these |
| Collections.RemovedFiresOnce | backend/loaders/collection.go:107-112 | when operations are atomic, the callback of a removed entry has run exactly once, that of a stored or overwritten one never |
| CollectionRaces.FreshRunsFireOnce | backend/loaders/collection.go:49-105 | under any interleaving of the single accesses, if no delete is stale (a Get's that misses the entry it loaded, or the second one of Delete that hits a new entry), every removed entry's callback has run exactly once when all are done, and no other has |
| CollectionRaces.StaleGetFiresTooOften | backend/loaders/collection.go:66-76 | the first stale delete of a Get breaks this for good: in every continuation that callback runs more often than its entry was removed |
| CollectionRaces.StaleDeleteForgets | backend/loaders/collection.go:71-89 | a stale delete that hits a new entry loses its callback in every continuation, unless another goroutine has that entry in hand |
| CollectionRaces.DoubleFire | backend/loaders/collection.go:66-76 | two Gets load one expired entry and both run its callback |
| CollectionRaces.LostCallback | backend/loaders/collection.go:61-76 | a Set between Load and Delete of a Get: the new entry is removed and its callback never runs |
| CollectionRaces.SetAlone | backend/loaders/collection.go:49-62 | Set alone stores a new entry and runs no callback |
| CollectionRaces.GetAlone | backend/loaders/collection.go:65-79 | Get alone renews a live entry and goes on to remove an expired one |
| CollectionRaces.ExpiredAlone | backend/loaders/collection.go:70-76 | an expired entry is removed and its callback runs |
| CollectionRaces.DeleteAlone | backend/loaders/collection.go:82-91 | Delete alone removes the entry and runs its callback once |
| CollectionRaces.AbsentAlone | backend/loaders/collection.go:66-86 | without an entry, Get and Delete do nothing |
| Loaders.AssembleBatch | backend/loaders/loader.go:135-147 | one result per key in the order of the keys, with the data of the key or the zero value, and the batch's error |
| Loaders.BatchItems | backend/loaders/loader.go:116-129 | each key gets the last row that has it, or nil; a factory error reaches every key |
| Loaders.BatchLists | backend/loaders/list.go:18-32 | each key gets all its rows in row order; a factory error reaches every key |
| Loaders.GetMany | backend/loaders/loader.go:161-177 | without a failed key the items that are there, in order; with one no items and the error of the first key, which may be none |
| Loaders.FailureReportedIff | backend/loaders/loader.go:164-166 | a failure comes back as an error if and only if the first key is among the failed ones; no error is made up |
| Loaders.LostFailure | backend/loaders/loader.go:164-166 | a first key that is there and a second that fails: neither items nor an error |
| Loaders.GetManyOfOneBatch | backend/loaders/loader.go:116-177 | when one batch loads all the keys, a factory error is reported, else the last rows of the keys come back in order |
| Loaders.PresentPositions | backend/loaders/loader.go:168-176 | the items that GetMany gives are all that are there, each once, in order |
| Loaders.LastWithIff | backend/loaders/loader.go:121-127 | the row of a key is the one of its rows that no other follows, and missing exactly if it has none |
| Loaders.RowsWithPositions | backend/loaders/list.go:22-29 | the rows of a key are all of its rows, each once, in the order of the rows |
| Loaders.RequestedLookup | backend/loaders/loader.go:106-133 | the rows of a batch give each requested key what the whole table gives it |
| Loaders.BatchEqualsPointwise | backend/loaders/loader.go:116-129 | in any batch every key gets what it gets when loaded alone, for items and for lists |
| Loaders.GetItemsForCollections | backend/sqlc/collection-queries.go:49-84 | twice as many items as rows: first as many made of zero rows, because the slice is made full and then appended to, then the rows, column by column |
| Loaders.PaddingVisibleIff | backend/sqlc/collection-queries.go:72-81 | the padding leaves the list of a key unchanged if and only if the key is not 0 or there are no rows |
| Loaders.PaddedBatchEqualsPointwise | backend/sqlc/collection-queries.go:49-84 | over the padded source, a batch still equals loading alone for every key but 0, although the padding depends on the batch |
| Sessions.AdminSessions.constructor | backend/sqlc/admin-sessions.sql.go:15-18 | an empty table |
| Sessions.AdminSessions.Create | backend/sqlc/admin-sessions.sql.go:15-29 | one row is inserted unless its hash is stored already, then nothing changes; the history grows by that query of the run model |
| Sessions.AdminSessions.DeleteById | backend/sqlc/admin-sessions.sql.go:31-40 | exactly that row is deleted; the history grows by that query of the run model |
| Sessions.AdminSessions.DeleteByTokenHash | backend/sqlc/admin-sessions.sql.go:42-51 | exactly the rows with that hash are deleted; the history grows by that query of the run model |
| Sessions.AdminSessions.DeleteExpired | backend/sqlc/admin-sessions.sql.go:53-62 | exactly the rows that expired before now are deleted; the history grows by that query of the run model |
| Sessions.AdminSessions.Rotate | backend/sqlc/admin-sessions.sql.go:64-92 | succeeds if and only if an unexpired row has the old hash and the new one is free; that row is the only match, it alone changes, its id and user come back, and the history grows by the rotation |
| Sessions.AdminSessions.LedgerHolds | backend/sqlc/admin-sessions.sql.go:84-86 | whatever was called on a table, its hashes are distinct and none was consumed more often than issued |
| Sessions.ConsumedAtMostIssued | backend/sqlc/admin-sessions.sql.go:84-86 | in every run stored hashes are distinct and each hash is consumed by rotations at most as often as it was issued, less often while it is stored |
| Sessions.SecondRotationLoses | backend/sqlc/admin-sessions.sql.go:84-86 | after one successful rotation of a hash that was issued once, no rotation of it succeeds |
| Sessions.RotationKeepsSession | backend/sqlc/admin-sessions.sql.go:64-71 | a rotation keeps the ids and users of all rows and every other row whole |
| Sessions.ExpiredSessionsDoNotRotate | backend/sqlc/admin-sessions.sql.go:64-71 | in no reachable state does a rotation of a row succeed that has expired or has another hash |
| Sessions.LiveSessionsRotate | backend/sqlc/admin-sessions.sql.go:64-71 | in every reachable state a live row rotates by its hash to a free new one, with the new expiry and its user |
| Sessions.OnlyStoredHashesRotate | backend/sqlc/admin-sessions.sql.go:84-86 | only a stored hash rotates, and the old one is gone afterwards |
| MultipartCopy.MultiPartCopy | backend/asset/copy-objects.go:151-210 | the part loop completes with all parts if and only if every upload succeeds, else aborts at the first that fails |
| MultipartCopy.PartsOf | backend/asset/copy-objects.go:151-210 | as many parts as the object needs and no more, numbered from 1 and one part size apart; none for an empty object |
| MultipartCopy.PartEnd | backend/asset/copy-objects.go:91-99 | a part ends inside its own two gigabytes, and reaches past the object only when the size is one byte short of a multiple |
| MultipartCopy.CoversExactlyIff | backend/asset/copy-objects.go:90-210 | the parts are contiguous, and cover every byte once and nothing else if and only if size mod part size is not part size - 1 |
| MultipartCopy.OneByteTooMany | backend/asset/copy-objects.go:93-95 | 2^31 - 1 bytes are asked for as the range 0 to 2^31 - 1 |
| IngestPlan.AddFiles | backend/asset/ingest.go:248-307 | each path enters the copy map by the rule of its kind, later ones replacing earlier ones of the same target, and its key the delete list, in order |
| IngestPlan.PlanStreams | backend/asset/ingest.go:229-278 | the SMIL file and its streams are copied below the stream folder; the keys put on the delete list carry the bucket's name |
| IngestPlan.PlanIngest | backend/asset/ingest.go:216-307 | the whole plan from the paths in the metadata: SMIL file and streams if any, then the listed files; what is copied from where to where and which keys are deleted |
| IngestPlan.CopiesExactly | backend/asset/ingest.go:240-303 | a target is in the copy map exactly if the SMIL file, a stream or a listed file goes there, and its source is such a file's object |
| IngestPlan.DeleteKeysExactly | backend/asset/ingest.go:216-307 | the delete list is the metadata file, the streams under keys with the bucket's name in front, and the listed files, and nothing else |
| IngestPlan.TargetsOfNames | backend/asset/ingest.go:249-294 | a stream goes to prefix/stream/name, a listed file to prefix/mux/name |
| Paths.ReduceTwice | backend/asset/ingest.go:294-307 | cleaning leaves no empty element and no ".", ".." only in front and none at the root; cleaning again changes nothing |
| Paths.ReductionRules | backend/asset/ingest.go:294-307 | "." and empty elements go, ".." takes back the element before it, stays if there is none, and goes at the root |
| Paths.CleanOfElements | backend/asset/ingest.go:294-307 | a rooted path stays rooted, a relative one relative, and what is left of nothing is "." |
| Paths.JoinDropsEmpty | backend/asset/ingest.go:294-307 | empty elements do not count in a join |
| Paths.BaseRules | backend/asset/ingest.go:294-294 | the base of a name is the name, slashes at the end do not count, nothing is "." and nothing but slashes is "/" |
| IngestPlan.PlanKeepsAllIff | backend/asset/ingest.go:292-306 | every listed file is copied to its recorded path if and only if no two listed files of different sources share a target |
| IngestPlan.PlannedLast | backend/asset/ingest.go:303-303 | an entry of the plan is kept if no later file of another source has its target |
| IngestPlan.SameTargetIffSameName | backend/asset/ingest.go:294-294 | two listed files get one path if and only if path.Base gives them one name, whatever folders they come from |
| IngestPlan.InsideWhenRelative | backend/asset/ingest.go:294-307 | the object that is copied is the one that is deleted when the metadata file has a relative path and no ".." is on the way |
| Ingest.ErrorsAreTheFailures | backend/asset/copy-objects.go:47-88 | under every schedule the collected errors are those of exactly the failed copies, each once; there are none if and only if all copies succeeded |
| Ingest.FailedCopyReports | backend/asset/copy-objects.go:62-76 | a failed copy appends its error under the mutex and stores nothing |
| Ingest.CopyStores | backend/asset/copy-objects.go:62-62 | a copy puts the content of its source under its target |
| Ingest.FailureEnds | backend/asset/ingest.go:343-347 | after a failed copy no streams are made and nothing is deleted |
| Ingest.OrderOfMain | backend/asset/ingest.go:342-459 | nothing is deleted before all copies are done and the streams are made; the delete may be disabled or fail |
| Ingest.DeletedFilesWereCopied | backend/asset/ingest.go:342-456 | in every reachable state, whether the delete step succeeded, failed half-way or never ran, a delivered listed file that is missing is stored with its content at the path recorded for it, unless the plan gave that path to another source |
| Ingest.LosesNothingIff | backend/asset/ingest.go:292-307 | no schedule, failure or content ever loses a listed file if and only if each keeps its path in the plan or is not among the deleted objects |
| Ingest.ReplacedFileIsLost | backend/asset/ingest.go:294-307 | a listed file whose path went to another source is lost, if it is deleted, by a run in which every copy and the delete succeed |
| Ingest.LosesNothingIffNames | backend/asset/ingest.go:292-307 | when no listed path leaves the bucket, nothing is ever lost if and only if listed files of one base name are one file |
| Ingest.EqualBaseNamesLose | backend/asset/ingest.go:294-307 | two files of one name in two folders of a delivery, such as "a/x.mp4" and "b/x.mp4": one is lost |
| Ingest.DeletedOnlyAfterAllCopies | backend/asset/ingest.go:342-456 | only listed keys ever leave the ingest bucket, and as soon as one has, every entry of the copy map is stored at its target |
| SearchFields.SearchObject.MapFromLocaleString | backend/search/fields.go:168-174 | exactly the valid entries are put in, under field, underscore and language code; every other key is kept |
| SearchFields.SearchObject.GetLocaleString | backend/search/fields.go:176-188 | the map of exactly the two-part keys of the field, however the map is iterated; a panic exactly when one of them holds no string |
| SearchFields.SearchObject.ToSearchObject | backend/search/fields.go:85-121 | the document has the id under "objectID", the plain fields unchanged, every valid entry under "title_", "description_", "showTitle_" or "seasonTitle_" and its code, and no other key; each field reads back as its readable entries |
| SearchFields.SearchObject.TakeLocaleString | backend/search/fields.go:61-72 | reading a field and deleting its plain key disturbs the reading of no field |
| SearchFields.SearchObject.ToSearchHit | backend/search/fields.go:58-75 | the id and the four localized maps, each as the original document has it; a panic exactly when the id or an entry is no string |
| SearchFields.RoundTrip | backend/search/fields.go:58-121 | flattening and reading back does not panic and gives the id and exactly the valid entries whose code has no underscore, for each of the four fields |
| SearchFields.FlattenedReadsBack | backend/search/fields.go:168-188 | a field put into a document that had none of it reads back as its readable entries |
| SearchFields.OtherFieldKept | backend/search/fields.go:168-188 | putting one field in leaves the reading of every other field as it was: no bleed |
| SearchFields.MatchesIsFlat | backend/search/fields.go:179-182 | a key that is taken for an entry is the field, an underscore and a code without one |
| SearchFields.ReadableIsAllIff | backend/search/fields.go:180-182 | the round trip is exact if and only if no valid entry has an underscore in its language code |
| Achievements.CountPerTopic | backend/achievements/conditions.go:139-147 | the map counts the lessons of every topic |
| Achievements.CountTopics | backend/achievements/conditions.go:175-186 | the sum over the topics; a result is appended, perhaps repeatedly, if and only if the sum reaches the amount |
| Achievements.CheckCompletedLessonAchievements | backend/achievements/conditions.go:139-189 | with distinct condition ids and no int32 overflow, the reported conditions are exactly those that are met |
| Achievements.UserAchievements.Persist | backend/achievements/conditions.go:112-121 | the upserts before the first that fails are stored, and only these |
| Achievements.UserAchievements.CheckNewAchievements | backend/achievements/conditions.go:97-122 | exactly the achievements of met conditions are added when all upserts succeed; none is taken away, made up or given other conditions |
| Achievements.PersistAddsExactly | backend/sqlc/achievements.sql.go:503-518 | the loop adds exactly the reported achievements with reported conditions, and keeps the conditions of stored ones |
| Achievements.PersistIdempotent | backend/achievements/conditions.go:112-121 | running the loop again leaves the same achievements with the same conditions |

## Left out

- RedisLimiter, RemoteCache and MemoryCache, with RedisCalls, RemoteCalls and MemoryCalls, are about one key; commands on other keys do not touch it.
- Time and expiries are whole numbers of one unit; Redis rounds a window to whole seconds, which is not modelled.
- `Endpoint` and `Middleware` of the limiter, which only choose key and limit.
- Waiting times: how long a waiter retries before `Lock` gives up is a step that may fail at any time; liveness and fairness are not stated.
- KeyedLock.RefinesKeyedMutex: the `sync.Once` around a second unlock is left out, callers unlock exactly once as documented.
- `KeepTTL` (a time to live of -1) and the msgpack encoding of the remote cache; an undecodable value is a failed read.
- The internals of go-generics-cache, redislock, squirrel, dataloader and math/rand, beyond the contracts above.
- Collections.Collection.DeleteExpired: a sweep, like every other operation of Collections, is one step; CollectionRaces takes the operations apart on one key, without the answers of Get. The janitor's ticker and its stop are only the reason why a sweep may stand anywhere.
- Cursors.ShuffleSegmentedArray: the random factor is a real number, so float rounding, NaN and conversions out of range are not captured; inputs on which the loop does not end are excluded by the condition that TerminatesIff proves exact.
- Encoding and parsing of cursors are not part of this model.
- Cursors.GeneratorTellsPagesApart: the generator of math/rand itself is not modelled, so no particular seed is named that makes an unaligned page differ.
- The SQL text that squirrel renders, bind errors and type errors that the database raises at run time.
- JsonLogicMeaning.CompilePreservesMeaning: it is about predicates before they are rendered; Placeholders states when rendering leaves their text alone. A filter is a list of fields in iteration order, so filters with several keys are included; which order Go picks is not.
- Loaders: caching and batching inside dataloader, the choice of the key function among the options, and `GetItemsForCollectionsWithRoles`, which has the same shape as the query that is modelled. Row slices hold values, not pointers to copies.
- Sessions.AdminSessions.Create: the random id is a parameter that is not taken yet; time is a parameter of every query.
- MultipartCopy.MultiPartCopy: object sizes are unbounded, so int64 and int32 overflow and S3's limit on the number of parts are not captured; etags, a missing part response and the calls around the loop are left out.
- Ingest.DeletedFilesWereCopied: it is about listed files. Streams are deleted by a key that carries the bucket's name, and the metadata file is deleted without a copy; both are in the plan and nothing is claimed of their originals. Nobody else writes to the two buckets meanwhile. Timed metadata, file sizes and database rows are left out; creating the streams is one step that may fail.
- JsonLogicMeaning.TwoPartColumnIff: reserved words and letters beyond ASCII in unquoted names are left aside.
- SearchFields.SearchObject.ToSearchObject: the plain fields are written in one go.
- SearchFields.SearchObject.ToSearchHit: it stops before mapstructure decodes the rest of the document; what a panic leaves in the document is not stated.
- SearchFields.RoundTrip: the same decode of the remaining fields is left out.
- Achievements.UserAchievements.CheckNewAchievements: only the completed-lessons action; the query that picks the new conditions is a parameter.
- GraphQL, HTTP, Elasticsearch, S3, MediaPackage, logging and tracing.
- `smallestTime`, `isKey` and `DeleteModel`, whose behaviour departs from their names.
