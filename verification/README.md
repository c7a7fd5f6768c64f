# A verified model of the distributed cache

The repository is a small distributed cache. A master process tracks cache servers by
their heartbeats, keeps the primaries in shard order, and answers every client request
for a key with the address of the server that has it, found on a consistent-hash ring.
Cache servers keep their entries in an LRU list, and each primary keeps its own copy of
the list of primaries, changed by the texts the master sends. When the cluster shrinks,
the last cache is told to die, rebuilds the ring of the survivors by itself, and sends
its entries to where the master will look for them. Clients remember routes in a small
LRU cache of their own.

This project models those pieces in Dafny and proves what they promise. Code that
changes things in place is a class with the same fields; each of its methods is proved
to do what a specification function says, and the theorems are about those functions.

## Layout

| file | what it holds |
|---|---|
| `Options.dfy`, `Collections.dfy` | a value that may be missing, and two counting facts |
| `Murmur.dfy` | the 32-bit string hash, and that each of its steps is injective |
| `Ring.dfy`, `ConsistentHash.dfy` | what the ring is, and the ring object |
| `Recency.dfy`, `ServerCache.dfy` | what an LRU cache is, and the doubly linked one of the server |
| `ClientModel.dfy`, `ClientCache.dfy` | the client's LRU cache, whose `erase` leaves list nodes behind |
| `ThreadPool.dfy`, `PoolObject.dfy` | the worker pool as interleaved steps, and its critical sections |
| `Wire.dfy` | the text formats and the loops that take them apart |
| `MasterModel.dfy`, `Master.dfy` | the master's tables as values, and the object that updates them |
| `CacheView.dfy`, `CacheServer.dfy` | a server's picture of the cluster, and the object that updates it |
| `Protocol.dfy`, `ViewAgreement.dfy` | the cluster as a step system with one FIFO queue per cache |
| `Faults.dfy` | which events the master survives, and runs on which it does not |
| `History.dfy` | that the tables, the answers and what the caches hear fit what happened |
| `Requests.dfy`, `Migration.dfy`, `Shrink.dfy` | client requests, the sends of a dying cache, the shrink end to end |

## Main theorems

- `Shrink.ShrinkKeepsEveryKey`: on every orderly run, after a shrink, the server the
  master routes a key to holds that key with the value the dead cache had. It rests on
  `ViewAgreement.MigrationAgreesWithRouting` (the dying cache and the master pick the
  same server) and `Migration.NothingIsLost` (no survivor throws out what it was sent).
- `ViewAgreement.QueuesCatchUp`: whatever is still in transit, reading it never fails and
  leaves the server with the list the master is announcing.
- `Protocol.MasterTableOnAllRuns`: the table invariant on every run, promotions included,
  and the safety of lookups in the middle of a join or a shrink.
- `Faults.RecordsAreFoundIff`: after every run, for every event that can come next, the
  master finds every record it follows if and only if the event is none of three: a
  heartbeat of a cache the detector erased before its first one, a replica joining onto a
  dead primary, the loss of a replica without a primary. Each of the three has a run that
  ends in it.
- `Ring.DeleteIsFreshIffClean` and `Ring.EveryRunIsFresh`: updating the ring in place
  equals building it from nothing; for deletion exactly when a checkable condition on the
  shards' points holds.
- `Recency.LargerCacheNeverLosesAHit`, `Recency.StaysIffFewOthersArePut` and
  `Recency.EvictsTheOldest`, carried to the pointers by `ServerCache.LRUCache.Get` and `Put`.
- `ThreadPool.NoWakeupIsLost`, `ThreadPool.TasksStartInOrderOnce`, `ThreadPool.PoolShutsDown`
  and `ThreadPool.ShutdownIsBounded`.
- `ClientModel.EveryRunIsSound`, `ClientModel.SizeIsBounded`, `ClientModel.PutIsVisibleIff`,
  `ClientModel.EveryRunIsByLastUse`.
- `History.ClientsReachTheAnnouncedPort`, `History.NobodyWaitsInVain`, `History.AnswerNamesPartner`,
  `History.SurvivorsListen`: where clients are sent, who is paired with whom, what answers
  say and who listens when a cache dies.
- `Murmur.SingleChangeNeverCollides`, hence `Ring.ShardHasTenPoints`.

## Hypotheses of the run theorems

`Protocol.Enabled` says when an event may happen:

- descriptors are positive and never used twice;
- one membership change at a time. A join of a primary and a shrink are two steps each,
  and lookups, deliveries and new connections may come between the two;
- heartbeats carry non-empty fields without '#', and the role is P or R;
- the event is not one at which the source follows a record that is not there, because
  the program does not go on from those. `Faults.RecordsAreFoundIff` says exactly which
  events these are, among all that `Faults.Happens` allows: every open descriptor may send
  a heartbeat, first or not, and any replica may be lost. They come from the detector
  erasing an unknown cache without closing its descriptor
  (master/mastertry/master.cpp:497-498 and 601-602), from lost and shrunk primaries
  staying on the stack of waiting ones (`MasterModel.LostPrimaryStaysOnStack`,
  `MasterModel.ShrunkPrimaryStaysOnStack`), and from `pair_fd` being followed without a
  test (master/mastertry/master.cpp:503).

`ViewAgreement.Orderly` adds, for the theorems about the servers' views, that no replica
is promoted and that a new primary does not have the address of a live one.
`ViewAgreement.Spacious` adds, for the migration theorems, that there are never more than
`limit` primaries and that no two of the first `limit` shards share a ring point. The last
is a condition on finitely many hash values. It is a hypothesis, not a theorem: the
project proves that names differing in one place never collide, which separates nodes of
one shard, and nothing about collisions between shards.

## Where code and documentation disagree

The model follows the code in each case.

- The format notes say `K` and `D` go to every cache, replicas included; the code sends to
  the descriptors in `fd_node` only, so to primaries (master/mastertry/master.cpp:383-387 and 587-592).
- The cache's own notes put `F#` in front of the initial list; neither the master
  (master/mastertry/master.cpp:275-283) nor the parser (cache/src/cache.cpp:67-84) does.

## Model

| member | source | states |
|---|---|---|
| `Murmur.Murmur32` | master/mastertry/ConsistentHash.cpp:15-30 | the loop and the five in-place mixes, with 32-bit wrap-around and sign-extended characters, compute the hash the other lemmas speak of |
| `Murmur.MixCharInjectiveInHash` | master/mastertry/ConsistentHash.cpp:18-20 | one round of the loop loses nothing of the running hash |
| `Murmur.MixCharInjectiveInChar` | master/mastertry/ConsistentHash.cpp:18-20 | one round of the loop loses nothing of the byte it takes in |
| `Murmur.FinishInjective` | master/mastertry/ConsistentHash.cpp:21-25 | the five closing shift-adds and xor-shifts together are injective on 32-bit words |
| `Murmur.SingleChangeNeverCollides` | master/mastertry/ConsistentHash.cpp:15-30 | two strings of one length that differ in exactly one position hash differently |
| `Murmur.KnownSeed` | master/mastertry/ConsistentHash.cpp:17 | the start value |
| `Murmur.KnownRound` | master/mastertry/ConsistentHash.cpp:19 | one round on the hash 0: the multiplier, modulo 2^32 |
| `Murmur.KnownBytes` | master/mastertry/ConsistentHash.cpp:19 | bytes above 127 are sign-extended, the others stay |
| `Murmur.LastCharIsMixedLast` | master/mastertry/ConsistentHash.cpp:18-20 | characters are mixed in from the left |
| `Murmur.KnownFinishes` | master/mastertry/ConsistentHash.cpp:21-25 | two values of the closing mixes, which fix the five shift amounts |
| `Murmur.TenNodesNeverCollide` | master/mastertry/ConsistentHash.cpp:37-43 | the first ten virtual nodes of any shard lie on ten different points |
| `Murmur.DecimalReadsBack` | master/mastertry/ConsistentHash.cpp:39-40 | a printed number has no leading zero and reads back |
| `Murmur.NamesAreDifferent` | master/mastertry/ConsistentHash.cpp:39-40 | different virtual nodes have different names |
| `Murmur.KnownName` | master/mastertry/ConsistentHash.cpp:39-40 | node 34 of shard 12 is SHARD-12NODE-34 |
| `Protocol.PlacementOfShard` | master/mastertry/master.cpp:345 | a shard of the master has the points of its first hundred names |
| `Ring.ShardHasTenPoints` | master/mastertry/ConsistentHash.cpp:37-43 | a shard with ten or more virtual nodes occupies at least ten points |
| `Ring.BuildIsFresh` | master/mastertry/ConsistentHash.cpp:31-45 | building shard by shard with insert files every point under the lowest shard that has it, and nothing else |
| `Ring.FreshIsUnique` | master/mastertry/ConsistentHash.cpp:31-45 | that description fits one ring only, so fresh rings of one size are equal |
| `Ring.AddKeepsFresh` | master/mastertry/ConsistentHash.cpp:101-111 | adding the next shard to a fresh ring gives the fresh ring of one shard more, collisions or not |
| `Ring.AssignShardsMeaning` | master/mastertry/ConsistentHash.cpp:88-98 | the re-assignment loop files a point under the last shard in range that has it and leaves other points alone |
| `Ring.LastOwnerIsLast` | master/mastertry/ConsistentHash.cpp:88-98 | that shard has the point and no later shard in range has it |
| `Ring.DeleteIsFreshIffClean` | master/mastertry/ConsistentHash.cpp:74-100 | deletion on a fresh ring gives the fresh ring of one shard less if and only if the re-assigned shards, and the dropped one, share no point with the shards the loop would take it from |
| `Ring.ApartIsClean` | master/mastertry/ConsistentHash.cpp:74-100 | that holds of every index when no two shards share a point |
| `Ring.EveryRunIsFresh` | master/mastertry/ConsistentHash.cpp:74-111 | after any run of additions and deletions the ring is the one built from nothing for the shards left |
| `Ring.DeleteKeepsSound` | master/mastertry/ConsistentHash.cpp:74-100 | even with collisions every point stays filed under a shard that has it and that still exists |
| `Ring.LowerBound` | master/mastertry/ConsistentHash.cpp:53 | the first point not below the hash, or none when all are below |
| `Ring.SuccessorIsNearest` | master/mastertry/ConsistentHash.cpp:46-60 | lookup with wrap-around picks the unique point with the least (point - hash) mod 2^32 |
| `Ring.AddDisruptsLittle` | master/mastertry/ConsistentHash.cpp:101-111 | adding a shard moves a key only onto the new shard |
| `Ring.DeleteDisruptsLittle` | master/mastertry/ConsistentHash.cpp:74-100 | a clean deletion, whatever index was asked for, changes the shard of keys of the highest shard only |
| `ConsistentHash.ConsistentHash.constructor` | master/mastertry/ConsistentHash.cpp:5-9 | an empty ring |
| `ConsistentHash.ConsistentHash.Initialize` | master/mastertry/ConsistentHash.cpp:31-45 | the nested loops insert the shards in order into whatever is there; on an empty ring that builds the fresh ring of the given size |
| `ConsistentHash.ConsistentHash.InsertNodes` | master/mastertry/ConsistentHash.cpp:37-43 | the inner loop with insert adds the points of one shard and moves no point that was there |
| `ConsistentHash.ConsistentHash.EraseNodes` | master/mastertry/ConsistentHash.cpp:76-85 | the erasing loop removes exactly the points of one shard |
| `ConsistentHash.ConsistentHash.AssignNodes` | master/mastertry/ConsistentHash.cpp:90-97 | the inner loop with assignment files all points of one shard under it |
| `ConsistentHash.ConsistentHash.AssignFrom` | master/mastertry/ConsistentHash.cpp:88-98 | the outer loop does that for the shards from the index on, in order |
| `ConsistentHash.ConsistentHash.AddNode` | master/mastertry/ConsistentHash.cpp:101-111 | adds one shard, counts it, and keeps a fresh ring fresh |
| `ConsistentHash.ConsistentHash.DeleteNode` | master/mastertry/ConsistentHash.cpp:74-100 | drops the highest shard and re-assigns from the index on; a fresh ring stays fresh if and only if the deletion is clean |
| `ConsistentHash.ConsistentHash.GetServer` | master/mastertry/ConsistentHash.cpp:46-60 | returns the clockwise nearest point of the ring to the hash of the key |
| `ServerCache.LRUCache.constructor` | cache/src/LRU_cache.hpp:83-92 | two linked sentinels, an empty map and an empty recency sequence |
| `ServerCache.LRUCache.Default` | cache/src/LRU_cache.hpp:72-81 | the same with capacity 10 |
| `ServerCache.LRUCache.Remove` | cache/src/LRU_cache.hpp:200-205 | unlinks one node; forward and backward walks agree on the rest |
| `ServerCache.LRUCache.Add2Head` | cache/src/LRU_cache.hpp:174-181 | links a node in right behind the head; both walks agree |
| `ServerCache.LRUCache.Move2Head` | cache/src/LRU_cache.hpp:184-189 | the node moves to the front and the others keep their order |
| `ServerCache.LRUCache.RemoveTail` | cache/src/LRU_cache.hpp:191-197 | unlinks and returns the last node before the tail sentinel |
| `ServerCache.LRUCache.Check` | cache/src/LRU_cache.hpp:154-158 | true exactly for resident keys; changes nothing |
| `ServerCache.LRUCache.Touch` | cache/src/LRU_cache.hpp:106-107 | moves the node of a resident key to the front with its value |
| `ServerCache.LRUCache.Get` | cache/src/LRU_cache.hpp:101-115 | is the recency get: a hit returns the value and becomes most recent, a miss returns the empty value and changes nothing |
| `ServerCache.LRUCache.Overwrite` | cache/src/LRU_cache.hpp:124-134 | a resident key gets the value and becomes most recent |
| `ServerCache.LRUCache.Insert` | cache/src/LRU_cache.hpp:135-139 | a new key becomes most recent in list, map and size |
| `ServerCache.LRUCache.EvictTail` | cache/src/LRU_cache.hpp:140-147 | the least recent key leaves list, map and size and is returned |
| `ServerCache.LRUCache.Put` | cache/src/LRU_cache.hpp:118-152 | is the recency put: within capacity, evicting and returning the least recent key when a new key does not fit |
| `ServerCache.LRUCache.AllKey` | cache/src/LRU_cache.hpp:62-69 | every resident key once, nothing else |
| `ServerCache.MoveKeepsMapped` | cache/src/LRU_cache.hpp:184-189 | moving a node keeps list and map in one-to-one agreement |
| `ServerCache.MoveSpells` | cache/src/LRU_cache.hpp:184-189 | the recency sequence after a move is the old one with that entry in front |
| `ServerCache.LinkKeepsMapped` | cache/src/LRU_cache.hpp:135-139 | linking and mapping a new key keeps the agreement |
| `ServerCache.UnlinkLastKeepsMapped` | cache/src/LRU_cache.hpp:140-147 | unlinking the last node and erasing its key keeps the agreement |
| `ServerCache.MapAgreesWithList` | cache/src/LRU_cache.hpp:154-158 | a key is in the map exactly when it is in the recency sequence |
| `ServerCache.MapSizeIsListSize` | cache/src/LRU_cache.hpp:135-147 | the map has one key per list node, so `size` is the size of both |
| `ServerCache.MappedIsDistinct` | cache/src/LRU_cache.hpp:118-152 | no key is listed twice |
| `Recency.RunKeepsFits` | cache/src/LRU_cache.hpp:102-152 | on every sequence of gets and puts keys stay distinct and the size within capacity |
| `Recency.PutContents` | cache/src/LRU_cache.hpp:119-152 | after a put the cache holds what it held, with the new value, minus exactly the evicted key |
| `Recency.ApplyKeepsIncluded` | cache/src/LRU_cache.hpp:102-152 | one operation keeps a smaller cache a subsequence of a larger one |
| `Recency.LargerCacheNeverLosesAHit` | cache/src/LRU_cache.hpp:102-152 | on every sequence of operations every hit of a smaller cache is a hit of a larger one, with the same value |
| `Recency.KeySurvives` | cache/src/LRU_cache.hpp:102-152 | a resident key survives with its value while fewer other keys than the capacity are in front of it or named |
| `Recency.JustUsedKeySurvives` | cache/src/LRU_cache.hpp:102-152 | a key just used survives any operations naming fewer other keys than the capacity |
| `Recency.StaysIffFewOthersArePut` | cache/src/LRU_cache.hpp:119-152 | a key just used is still there after later puts of other keys if and only if they name fewer different keys than the capacity |
| `Recency.EvictsTheOldest` | cache/src/LRU_cache.hpp:102-152 | on every sequence of gets and puts each resident key was used later than the ones behind it, and the key a put throws out is the resident one whose last use is longest ago |
| `ClientModel.EveryRunIsSound` | Client/include/lru.hpp:18-49 | on every sequence every map entry points at a live node with its key, and a present key reads as its latest put, leftover nodes or not |
| `ClientModel.PutIsSound` | Client/include/lru.hpp:18-33 | a put keeps the other surviving keys and their values and lets no other key in |
| `ClientModel.GetIsSound` | Client/include/lru.hpp:41-49 | a get changes no value and no map entry |
| `ClientModel.MapFitsList` | Client/include/lru.hpp:18-57 | distinct keys have distinct nodes, so the map is no larger than the list |
| `ClientModel.SizeIsBounded` | Client/include/lru.hpp:18-57 | the list never has more nodes than the maximum plus the erases that found their key |
| `ClientModel.WithoutErasesItIsExact` | Client/include/lru.hpp:18-57 | without erases list and map hold the same keys, within the maximum |
| `ClientModel.PutIsVisibleIff` | Client/include/lru.hpp:18-33 | a key just put is present unless, and only unless, the map overflows and the last node is the new one or a leftover of that key |
| `ClientModel.PutCanBeLost` | Client/include/lru.hpp:18-39 | a concrete run in which a put does evict its own key |
| `ClientModel.WithoutErasesPutIsVisible` | Client/include/lru.hpp:18-33 | without erases, and with room for one entry, a put is always visible |
| `ClientModel.EveryRunIsByLastUse` | Client/include/lru.hpp:18-49 | on every sequence, leftovers aside, each list node was used later, by a put or a get, than the ones behind it |
| `ClientModel.WithoutErasesTheOldestGoes` | Client/include/lru.hpp:18-49 | without erases, the key an overflow throws out is the one whose last use is longest ago |
| `ClientCache.LruCache.constructor` | Client/include/lru.hpp:16 | empty list and map |
| `ClientCache.LruCache.Put` | Client/include/lru.hpp:18-33 | push in front, drop the old node, evict when the map is too large, as the model says |
| `ClientCache.LruCache.PushFront` | Client/include/lru.hpp:19-25 | the push, the removal of the old node and the map update in the source's order |
| `ClientCache.LruCache.PopBack` | Client/include/lru.hpp:27-32 | drops the last node and the map entry of its key, whatever node that entry points at |
| `ClientCache.LruCache.Erase` | Client/include/lru.hpp:34-39 | drops the map entry only |
| `ClientCache.LruCache.Get` | Client/include/lru.hpp:41-49 | a missing key is the range error; a present key returns its value and its node moves to the front |
| `ClientCache.LruCache.Exists` | Client/include/lru.hpp:51-53 | true exactly when a get would succeed |
| `ClientCache.LruCache.Size` | Client/include/lru.hpp:55-57 | the number of map entries, no more than list nodes |
| `ThreadPool.StartSatisfiesInv` | cache/src/threadPool.hpp:53-102 | a new pool of any capacity satisfies the invariant |
| `ThreadPool.EveryRunKeepsInv` | cache/src/threadPool.hpp:60-95 | every interleaving of worker, caller and destructor steps keeps it, spurious wake-ups included |
| `ThreadPool.NoWakeupIsLost` | cache/src/threadPool.hpp:60-141 | while a worker is blocked, at least as many others are on their way to the queue as tasks are queued, counting the one a caller between push and notify is about to wake; so a queued task always has a worker awake, and after notify_all none is blocked |
| `ThreadPool.TasksStartInOrderOnce` | cache/src/threadPool.hpp:44-141 | tasks start in the order accepted, each once, and the counter is the number of workers between the hooks, within capacity |
| `ThreadPool.ExitedPoolHasRunEverything` | cache/src/threadPool.hpp:77-119 | when all workers of a pool that has any have exited, every accepted task has run exactly once |
| `ThreadPool.WorkerStepsBringTheEndCloser` | cache/src/threadPool.hpp:60-119 | after notify_all every worker step lowers a measure |
| `ThreadPool.LivePoolCanStep` | cache/src/threadPool.hpp:60-119 | until all have exited some worker can step |
| `ThreadPool.PoolShutsDown` | cache/src/threadPool.hpp:108-119 | after notify_all, in whatever state, the workers finish the queue and exit within the measure; a caller inside enqueue has one step more, to be refused |
| `ThreadPool.ShutdownIsBounded` | cache/src/threadPool.hpp:108-119 | no schedule of worker steps is longer than the measure |
| `ThreadPool.PoolWithoutWorkersStrandsTasks` | cache/src/threadPool.hpp:53-102 | a pool of capacity zero accepts a task and never runs it |
| `PoolObject.Pool.constructor` | cache/src/threadPool.hpp:53-57 | the initial state of the step system |
| `PoolObject.Pool.TakeTask` | cache/src/threadPool.hpp:65-84 | the worker's critical section is one step: block, quit, or take the oldest task and count up |
| `PoolObject.Pool.AfterTask` | cache/src/threadPool.hpp:89-92 | the closing hook is one step; the unsigned counter does not wrap below zero |
| `PoolObject.Pool.Enqueue` | cache/src/threadPool.hpp:122-142 | the critical section is a legal run of steps; refused exactly when stopped, else the task is last in the queue |
| `PoolObject.Pool.StopAndNotify` | cache/src/threadPool.hpp:108-115 | the stop flag and notify_all are two steps |
| `Wire.Split` | master/mastertry/master.h:105-142 | the nested loops terminate on every input and return the maximal runs of non-separators |
| `Wire.SkipFrom` | master/mastertry/master.h:113-122 | the first inner loop stops at the first character that is no separator |
| `Wire.TokenEnd` | master/mastertry/master.h:125-135 | the second inner loop stops at the next separator or the end |
| `Wire.IsSeparator` | master/mastertry/master.h:116-121 | the innermost loop is the membership test |
| `Wire.TokensAreClean` | master/mastertry/master.h:105-142 | no token is empty or has a separator in it |
| `Wire.SplitInvertsJoinIff` | master/mastertry/master.h:105-142 | splitting on # gives back the printed fields if and only if each is non-empty and has no # |
| `Wire.HeartbeatRoundTrip` | cache/src/cache.cpp:120 | a heartbeat splits into its five fields if and only if the four variable ones are non-empty and have no # |
| `Wire.SliceMessage` | cache/src/cache.cpp:341-349 | cuts at the first #; without one the substring throws |
| `Wire.SliceInvertsIff` | cache/src/cache.cpp:341-349 | gives back key and value if and only if the key has no #, whatever the value |
| `Wire.Unpack` | cache/src/cache.cpp:67-84 | the unpacking loop deals the fields out to ip and port in turn and the last one to port |
| `Wire.Initial` | cache/src/cache.cpp:67-99 | the whole parse, with the error when the two lists do not match up |
| `Wire.InitRoundTripIff` | cache/src/cache.cpp:67-99 | the initial list reads back as sent if and only if no address has a # in it |
| `CacheView.ReadNew` | cache/src/cache.cpp:439-445 | an `N` adds the address last, unless it is the cache's own |
| `CacheView.ReadKill` | cache/src/cache.cpp:427-438 | a `K` erases the address, remembers it, and marks the cache killed if it is its own |
| `CacheView.ReadDead` | cache/src/cache.cpp:496-505 | a `D` erases the address |
| `CacheView.ReadReply` | cache/src/cache.cpp:446-468 | an answer to a heartbeat sets the role, the other half of the pair and, for a primary, the role it claims; nothing else, and nothing at all in a killed cache |
| `CacheView.ReadFailsIff` | cache/src/cache.cpp:414-509 | exactly the messages on which the source throws or is undefined |
| `CacheView.OtherHeadsAreIgnored` | cache/src/cache.cpp:425-505 | a message with an unknown head changes nothing |
| `CacheView.FoldSnoc` | cache/src/cache.cpp:136-151 | reading a queue with one more message is reading the queue, then the message |
| `CacheView.EraseFirst` | cache/src/cache.cpp:620-624 | erasing takes out the first equal entry and no other |
| `CacheView.EraseAt` | cache/src/cache.cpp:620-624 | without duplicates, erasing a listed address takes out its entry wherever it is |
| `CacheView.EraseFindsIff` | cache/src/cache.cpp:620-624 | the search finds an entry if and only if the address is listed |
| `CacheServer.CacheServer.constructor` | cache/src/cache.cpp:7-24 | a replica starts initialised, a primary waits for its list |
| `CacheServer.CacheServer.EraseEntry` | cache/src/cache.cpp:620-624 | erases the first equal entry, or reports the past-the-end erase |
| `CacheServer.CacheServer.UpdateCache` | cache/src/cache.cpp:601-634 | adds or erases one address and remembers a killed one |
| `CacheServer.CacheServer.ReadFromMaster` | cache/src/cache.cpp:414-509 | every branch on the head of a message, with the inputs on which the source throws or is undefined |
| `CacheServer.CacheServer.Pair` | cache/src/cache.cpp:446-468 | the role and the other half of the pair |
| `CacheServer.CacheServer.OnMessage` | cache/src/cache.cpp:136-151 | the first message of a primary is its list, all others are commands |
| `CacheServer.CacheServer.CacheTexts` | cache/src/cache.cpp:796-799 | the list as ip#port texts, in order |
| `CacheServer.CacheServer.TargetOf` | cache/src/cache.cpp:810-816 | one lookup on the rebuilt ring, taken back to an address |
| `CacheServer.CacheServer.CalHashKey` | cache/src/cache.cpp:793-821 | for every key the address its shard has on the ring built from nothing for the remaining list |
| `CacheServer.CacheServer.ToSingleCache` | cache/src/cache.cpp:305-321 | the text key#value, read through the LRU list |
| `CacheServer.CacheServer.Messages` | cache/src/cache.cpp:546-548 | every key is sent once with the value it had before the first send |
| `CacheServer.CacheServer.CachePass` | cache/src/cache.cpp:524-548 | a killed cache sends every entry it holds, each once, to the target of its key; with an empty list it sends nothing |
| `CacheServer.CacheServer.FromSingleCache` | cache/src/cache.cpp:354-383 | a survivor puts the pair it received; a killed cache ignores it |
| `CacheServer.CacheServer.HandleTask` | cache/src/cache.cpp:173-206 | reads and writes, with the three answer formats |
| `Requests.ReadsWhatWasWritten` | cache/src/cache.cpp:173-206 | what was just written with key#value is what a read of the key answers, for every #-free key and every value |
| `Requests.ReadAnswerText` | cache/src/cache.cpp:180-195 | a read of an absent key is answered FAILED, key, address; of a present one SUCCESS, key, address, value |
| `Requests.ReadAnswerFields` | cache/src/cache.cpp:180-195 | taken apart at the #, the first field says FAILED if and only if the key is absent |
| `Requests.WriteAnswerFields` | cache/src/cache.cpp:196-205 | a write is answered SUCCESS, key, address, whatever was there |
| `Requests.ReadsKeepKeysYoung` | cache/src/cache.cpp:173-206 | on every sequence of requests a resident key was named later, by a read or a write, than the ones behind it |
| `Requests.ServeKeepsKeysClean` | cache/src/cache.cpp:173-206 | clients can only ever store keys without # |
| `Migration.SendAllRunsEveryStore` | cache/src/cache.cpp:546-548 | what a survivor goes through is one put per key sent its way, in order |
| `Migration.SentKeyStaysIff` | cache/src/cache.cpp:354-383 | a key sent is resident at its target at the end, with its value, if and only if fewer keys than the capacity were sent the same way after it |
| `Migration.SentKeysAreResident` | cache/src/cache.cpp:354-383 | every key sent is resident at its target with its value, in any order, if no more are sent than a cache holds |
| `Migration.NothingIsLost` | cache/src/cache.cpp:546-548 | with equal capacities and no client traffic every key the dying cache held ends up at its target with its value |
| `MasterModel.AcceptKeepsOk` | master/mastertry/master.cpp:206-207 | a new connection keeps the table invariant |
| `MasterModel.BeginPrimaryKeepsOk` | master/mastertry/master.cpp:252-264 | enrolling and pairing a primary keeps it; the waiting replica on top is always live |
| `MasterModel.EndPrimaryKeepsOk` | master/mastertry/master.cpp:269-299 | growing the ring and announcing keeps it; every shard index has a primary |
| `MasterModel.JoinReplicaKeepsOk` | master/mastertry/master.cpp:302-314 | enrolling and pairing a replica keeps it |
| `MasterModel.BeatKeepsOk` | master/mastertry/master.cpp:318-333 | the pair named in an answer is on record; answering keeps the invariant |
| `MasterModel.OnHeartbeatKeepsOk` | master/mastertry/master.cpp:238-316 | a first heartbeat with role P or R, and any later one, keeps the invariant |
| `MasterModel.HeartbeatCanBeAnswered` | master/mastertry/master.cpp:317-329 | whatever the role, the answer finds the records it names |
| `MasterModel.KnownByAddress` | master/mastertry/master.cpp:238 | the address is still "0" exactly until the first heartbeat |
| `MasterModel.LoseReplicaKeepsOk` | master/mastertry/master.cpp:500-506 | losing a paired replica keeps the invariant; its primary waits again |
| `MasterModel.FailoverKeepsOk` | master/mastertry/master.cpp:513-557 | promoting a replica keeps the invariant |
| `MasterModel.FailoverPreservesRouting` | master/mastertry/master.cpp:510-557 | keys of the lost primary go to its replica, all others keep their server, the ring is untouched |
| `MasterModel.LosePrimaryKeepsOk` | master/mastertry/master.cpp:558-595 | removing an unpaired primary keeps the invariant |
| `MasterModel.LostPrimaryStaysOnStack` | master/mastertry/master.cpp:558-595 | the lost primary stays on the waiting stack, and the top is live afterwards if and only if the old top was live and was not the lost one |
| `MasterModel.ShrunkPrimaryStaysOnStack` | master/mastertry/master.cpp:392-402 | so does a shrunk primary without a replica, with the same condition for the top |
| `MasterModel.BeginShrinkKeepsOk` | master/mastertry/master.cpp:374-387 | dropping the last shard and announcing it keeps the invariant |
| `MasterModel.EndShrinkKeepsOk` | master/mastertry/master.cpp:392-402 | forgetting the last primary and its replica keeps the invariant |
| `MasterModel.LookupIsSafe` | master/mastertry/master.cpp:424-441 | a lookup stays inside the table and reaches a live primary, also when table and ring are one apart |
| `MasterModel.JoinDisruptsLittle` | master/mastertry/master.cpp:269-270 | a join moves a key only to the newcomer |
| `MasterModel.RemovalDisruptsLittle` | master/mastertry/master.cpp:565-579 | a removal at position p keeps the server of a key not on the highest shard if and only if its shard is below p, else it moves to the next server |
| `MasterModel.LookupInHalfRemovalIff` | master/mastertry/master.cpp:565-571 | between the two halves of a removal a lookup is in range if and only if its key is not on the highest shard |
| `MasterModel.RemovalInHalvesIsUnsafeIff` | master/mastertry/master.cpp:565-571 | some key has a lookup past the end of the table in between if and only if the highest shard has a point on the ring |
| `MasterModel.RemovalInHalvesIsUnsafe` | master/mastertry/master.cpp:565-571 | on a fresh ring whose shards share no point, the name of a node of the highest shard is a key whose lookup is past the end of the table between the two halves of a removal |
| `Protocol.StepIsDefined` | master/mastertry/master.cpp:252-595 | an event the step system goes on from follows only pairs, stack tops and list entries that are on record; `Faults.RecordsAreFoundIff` says which events those are |
| `Protocol.DoKeepsMasterOk` | master/mastertry/master.cpp:252-595 | every enabled event keeps the invariant |
| `Protocol.MasterTableOnAllRuns` | master/mastertry/master.cpp:252-595 | on all runs fd_node is exactly the live primaries without repetition, pairing is symmetric between a primary and a replica, every unpaired cache waits once, and lookups reach a recorded primary |
| `Faults.RecordedIffNotForgotten` | master/mastertry/master.cpp:206-602 | on every run an open descriptor has a record if and only if the detector did not erase it before its first heartbeat |
| `Faults.RecordsAreFoundIff` | master/mastertry/master.cpp:233-602 | after every run, every record that handling the next event follows is there if and only if the event is not a heartbeat of an erased unknown cache, a replica joining onto a dead stack top, or the loss of a replica without a primary |
| `Faults.SlowFirstHeartbeatIsFatal` | master/mastertry/master.cpp:462-602 | a run that ends in the first: accept, erase, heartbeat |
| `Faults.ReplicaAfterLossIsFatal` | master/mastertry/master.cpp:302-308 | a run that ends in the second after a primary was lost |
| `Faults.ReplicaAfterShrinkIsFatal` | master/mastertry/master.cpp:302-308 | a run that ends in the second after a primary was shrunk away |
| `Faults.LoneReplicaIsFatal` | master/mastertry/master.cpp:500-504 | a run that ends in the third |
| `History.PrimaryJoins` | master/mastertry/master.cpp:243-264 | a primary is written down as announced; if a replica waits, the last one to wait and it name each other and that one alone leaves its stack; else it is the last to wait |
| `History.ReplicaJoins` | master/mastertry/master.cpp:243-313 | the same for a replica and the waiting primaries |
| `History.FirstHeartbeatIsAJoin` | master/mastertry/master.cpp:237-314 | the text of a first heartbeat is recorded with role, client port and cache port where they belong; an unknown role is recorded and nothing else |
| `History.NobodyWaitsInVain` | master/mastertry/master.cpp:255-313 | on every run without loss or promotion of a replica, primaries and replicas never wait at the same time |
| `History.StacksKept` | master/mastertry/master.cpp:206-595 | no other event touches the stacks |
| `History.ReplicaLossRequeues` | master/mastertry/master.cpp:500-506 | the primary of a lost replica is the next to get one, and nothing else changes |
| `History.FailoverIsTold` | master/mastertry/master.cpp:513-557 | a promoted replica is the next to get a replica, and every primary left is told in one text whose place it has taken |
| `History.RecordsAreAsAnnounced` | master/mastertry/master.cpp:243-249 | on every run a record has the ip and the two ports of that cache's own first heartbeat |
| `History.ClientsReachTheAnnouncedPort` | master/mastertry/master.cpp:424-441 | on every run a client is told the ip and client port that the primary its key is routed to announced |
| `History.AnswerNamesPartner` | master/mastertry/master.cpp:317-333 | an answer goes to the asker only and names its role and the cache address of its partner, or None if and only if it has none |
| `History.ReaderLearnsPartner` | cache/src/cache.cpp:446-468 | on every run a cache that reads its answer has the role and the partner on record, unless it was told to die |
| `History.ReplicasHearAnswersOnly` | master/mastertry/master.cpp:290-333 | on every run nothing but answers to its heartbeats is queued for a replica |
| `History.NewReplicaLearnsItsPrimary` | cache/src/cache.cpp:13-24 | a replica needs no list: the first thing it reads is its answer, after which it knows its role and its primary |
| `History.SurvivorsListen` | cache/src/cache.cpp:573-583 | on every orderly run, when a shrink begins, each survivor that reads its queue waits for the entries of the dying cache, which is the one that is killed |
| `ViewAgreement.NewArrives` | cache/src/cache.cpp:439-445 | an `N` in transit is one address more on the list to come |
| `ViewAgreement.DeadArrives` | cache/src/cache.cpp:496-505 | a `D` in transit takes one address off the list to come and will find it |
| `ViewAgreement.KillArrives` | cache/src/cache.cpp:427-438 | so does a `K`, and it kills exactly the cache it names |
| `ViewAgreement.InitArrives` | cache/src/cache.cpp:67-99 | the initial text brings a newcomer to the whole list |
| `ViewAgreement.Delivered` | cache/src/cache.cpp:136-151 | delivering the oldest message never fails and leaves the list to come as it was |
| `ViewAgreement.DoKeepsViews` | master/mastertry/master.cpp:266-592 | every orderly event keeps all views on their way to the announced list |
| `ViewAgreement.QueuesCatchUp` | master/mastertry/master.cpp:266-592 | on every orderly run, reading what is queued never fails and ends in the announced list, which between changes is the ip_cache of fd_node in order |
| `ViewAgreement.RunKeepsFresh` | master/mastertry/master.cpp:266-592 | on every run the ring is the one built from nothing, while shards share no point |
| `ViewAgreement.MigrationAgreesWithRouting` | cache/src/cache.cpp:793-821 | the address the killed cache computes for any key is that of the primary the master routes it to, during and after the shrink |
| `Shrink.ShrinkKeepsEveryKey` | cache/src/cache.cpp:524-548 | after the shrink the server the master names for a key holds it with the value the dead cache had |
| `Master.FdMap.constructor` | master/mastertry/master.h:144-151 | a record starts unknown and unpaired |
| `Master.Master.constructor` | master/mastertry/master.cpp:343-345 | empty tables and an empty ring with 100 virtual nodes a shard |
| `Master.Master.Send` | master/mastertry/master.cpp:282-283 | one text more on one queue |
| `Master.Master.Broadcast` | master/mastertry/master.cpp:290-299 | one text more on each listed queue and on no other |
| `Master.Master.AllCaches` | master/mastertry/master.cpp:275-280 | the loop with leading separators and the cut of the first one print the list |
| `Master.Master.Accept` | master/mastertry/master.cpp:206-207 | one new unknown record; the others are untouched |
| `Master.Master.SetPair` | master/mastertry/master.cpp:257 | changes the pair of one record |
| `Master.Master.Couple` | master/mastertry/master.cpp:257-258 | makes two records point at each other |
| `Master.Master.Enroll` | master/mastertry/master.cpp:243-249 | writes role, client address and cache address of one record |
| `Master.Master.PairPrimary` | master/mastertry/master.cpp:255-264 | takes the top waiting replica, or waits |
| `Master.Master.BeginPrimary` | master/mastertry/master.cpp:252-264 | the first half of a primary's join |
| `Master.Master.Announce` | master/mastertry/master.cpp:271-299 | the whole list to the newcomer first, then the newcomer to all |
| `Master.Master.GrowRing` | master/mastertry/master.cpp:269-270 | one shard more on the ring, under the newcomer's position |
| `Master.Master.EndPrimary` | master/mastertry/master.cpp:268-299 | the second half: ring, list, announcement |
| `Master.Master.JoinReplica` | master/mastertry/master.cpp:302-314 | pairs a replica with the top waiting primary, or lets it wait |
| `Master.Master.Reply` | master/mastertry/master.cpp:317-333 | the answer names the role and the pair or None |
| `Master.Master.OnFirstHeartbeat` | master/mastertry/master.cpp:238-316 | dispatch on the role; an unknown role is written down only |
| `Master.Master.EnrollIfNew` | master/mastertry/master.cpp:238-316 | only a cache whose address is still unknown is enrolled |
| `Master.Master.Heartbeat` | master/mastertry/master.cpp:219-335 | a heartbeat text is split, enrolls an unknown cache whatever its role, and is answered |
| `Master.Master.Forget` | master/mastertry/master.cpp:601-603 | drops one record |
| `Master.Master.LoseReplica` | master/mastertry/master.cpp:500-506 | unpairs and queues its primary, drops its record |
| `Master.Master.PlaceOf` | master/mastertry/master.cpp:563-579 | the search loop finds the position of a descriptor |
| `Master.Master.Replace` | master/mastertry/master.cpp:516-551 | the replica takes the position and the promotion text goes out |
| `Master.Master.Promote` | master/mastertry/master.cpp:553-554 | the replica becomes an unpaired primary |
| `Master.Master.Retire` | master/mastertry/master.cpp:553-603 | promotes one record and drops the other |
| `Master.Master.Failover` | master/mastertry/master.cpp:510-557 | a lost primary with a replica |
| `Master.Master.Drop` | master/mastertry/master.cpp:561-579 | takes a primary out of table and ring at the same position |
| `Master.Master.AnnounceDead` | master/mastertry/master.cpp:585-603 | the primaries that are left are told, and the record goes |
| `Master.Master.LosePrimary` | master/mastertry/master.cpp:558-595 | a lost primary without a replica |
| `Master.Master.OnDead` | master/mastertry/master.cpp:497-603 | the detector's branches on role and pair |
| `Master.Master.BeginShrink` | master/mastertry/master.cpp:374-387 | the last shard leaves the ring and all are told, the last primary included |
| `Master.Master.ForgetPair` | master/mastertry/master.cpp:392-396 | drops the replica of a cache that has one |
| `Master.Master.ForgetBoth` | master/mastertry/master.cpp:392-398 | a cache and its replica are dropped |
| `Master.Master.EndShrink` | master/mastertry/master.cpp:392-402 | the last primary and its replica leave the tables |
| `Master.Master.HandleClientMessage` | master/mastertry/master.cpp:424-441 | the client address, as ip:port, recorded for the primary at the shard of the key |

## Left out

- Sockets, epoll, fork, buffer sizes, partial reads and text truncated by a buffer: each connection is a reliable FIFO queue of whole texts.
- Time: heartbeat intervals, `sleep`, the timers and the keyboard loop. That a cache is found dead, and that a shrink is asked for, are events that may come at any moment the hypotheses allow.
- Races between the master's threads. Its tables have no lock; a ring update, the removal of an unpaired primary and each half of a join or shrink are one step. `MasterModel.RemovalInHalvesIsUnsafe` says what the removal would allow otherwise.
- Protocol.Enabled: shrinks, joins and the detector exclude each other; and runs end before an event of `Faults.IsFatal`, at which the program dereferences a null record.
- The handler of the promotion text (cache/src/cache.cpp:469-495): its inner `slice` returns nothing, so C++ gives it no meaning, and it would change a copy. `CacheView.ReadFromMaster` has no result for it.
- ViewAgreement.QueuesCatchUp: runs with a promotion are excluded for that reason; the master's side of a promotion is in `Protocol` and `MasterModel`.
- ViewAgreement.MigrationAgreesWithRouting: assumes that no two of the first `limit` shards share a ring point; that is a finite computation with the hash, not carried out here.
- Migration.NothingIsLost: assumes equal capacities and no client traffic during the migration; for other capacities `Migration.SentKeyStaysIff` says which keys stay.
- Shrink.ShrinkKeepsEveryKey: for a shrink that leaves at least one primary; the last cache of all has nowhere to send its keys and the source returns (cache/src/cache.cpp:530-533).
- `replica_chat`, `primary_cache` and `replica_cache`: the program never starts them.
- `LRU_Cache::del` and `LRU_Cache::all`, which do not type-check when used, and `set_capacity`, which nothing calls.
- The locks around single operations of the server's LRU cache, the read of a node's value after `get` has unlocked, and the freeing of evicted nodes.
- ServerCache.LRUCache.AllKey: the order of an unordered map is left open, and every theorem about migration holds for every order.
- ConsistentHash.ConsistentHash.constructor: sets the two counters to zero; the source leaves them unset until `initialize`.
- ConsistentHash.ConsistentHash.GetServer: requires a non-empty ring, on which the source dereferences an end iterator; debug output is left out.
- Murmur.Murmur32: the unused length argument and the test `hash < 0`, never true of an unsigned number; strings hold no NUL, and characters are bytes.
- ClientCache.LruCache.Put: list iterators are node numbers in a sequence, so pointer updates inside `std::list` are not modelled.
- ThreadPool.PoolShutsDown: task bodies are assumed to end and not to throw; futures and `packaged_task` are left out.
- Master.Master.Heartbeat: texts of fewer than five fields, on which the source reads past its vector; empty fields do not come out of the tokenizer (`Wire.TokensAreClean`); and a replica that finds a dead primary on top of the stack (`Faults.ReplicaAfterLossIsFatal`).
- Master.Master.OnDead: a lost replica without a primary, at which the source dereferences a null record (`Faults.LoneReplicaIsFatal`).
- MasterModel.OnHeartbeatKeepsOk: roles other than P and R; the method enrolls and answers them as the source does, and no run admits them.
- Descriptor reuse by the system, random keys, command lines, the client's bookkeeping of requests, logging, and the test and demo programs.
