# cn: LRU link cache and storage service

`cn` is a small link-shortener service written in Rust. Links are stored under
string keys by a storage service. The service drains a queue of `Store` and
`Load` events against a table with a unique key. In front of it sits a bounded
least-recently-used cache.

The cache maps each key to an `Option` of a link. A `None` value is a
*negative* entry: a confirmed miss, cached like a hit. A list of keys in
recency order sits beside the map. Its front is the least recently used key
and its back the most recently used.

This project models two parts and proves properties of them:

- **`LruCache` (cache.dfy).** `Lru` is a class with a map of entries and a
  fixed-size array of keys. Its capacity is the array's length. `Fetch`
  either answers a hit and moves the key to the back (`LiftUp`: a reverse
  search, then a left rotation), or consults storage and admits the answer.
  Admitting means doing nothing when the capacity is 0. Otherwise it evicts
  the front key when the cache is full, or appends when there is room. Each
  method is proved against a pure state machine over `LruState`: `New`,
  `Resolve`, `Admit` and `Promote`. The pure side carries the lemmas: the
  representation invariant, hits, misses, negative caching, promotion as
  "move to back", eviction of the least recently used key, and survival of a
  key that is touched often enough. `Run` and `Links` fold `Resolve` over a
  sequence of fetches against one storage function: storage that does not
  change during the run. A fetch rearranges the keys without regard to the values
  (`ResolveTouches`). So a run against storage that changes between fetches
  (`RunChanging`) leaves the same keys as a run against any one storage
  function (`OrderIgnoresStorage`). Given that equality of keys, what
  `RunOrder`, `EvictsEarliest` and `Survives` say about the keys of a run
  holds for changing storage too. `OrderUnderChangingStorage` spells this
  out for `RunOrder`.
  The lemmas about values (`RunAgrees`, `FromEmpty`, `ZeroCapacityForever`)
  are about unchanged storage only. `Order` is an independent reference for
  the recency order of a run. `Cache.Store` passes the store straight to storage and
  leaves the LRU untouched.
- **`CacheTraces` (cache_traces.dfy).** The unit tests of the LRU, stated
  as lemmas about runs of the model on the tests' own storage. After each
  fetch they state the value returned, the number of entries and the keys.
- **`Db` (db.rs in the source, db.dfy here).** `Database` holds the table as
  a map and gives the upsert and lookup meaning of the two SQL statements.
  `Service.Run` is the receive loop over the sequence of events the channel
  yields before it closes. `Access` appends the events it sends to a queue; a
  load gets a ticket, which is the index of its reply among the service's
  replies. `Serve` is the pure meaning of the loop. Its lemmas cover:
  read-your-writes, which says a load sees exactly the stores received before
  it; upsert; never-stored keys answering `None`; one reply per load; normal
  exit exactly when no storage operation fails; and a failure stopping the loop.

The storage callback of `Lru::fetch` is a function parameter
`load: Key -> Option<Link>`. A ghost log `loads` records each key for which
storage was consulted. A failure of a storage operation is an input to the
service model: a set `faults` of receipt indices whose operation fails.

## Model

| member | source | states |
|---|---|---|
| LruCache.LastIndex | src/cache.rs:81-88 | the index found by searching from the back holds the key, and no later position holds it |
| LruCache.IndexUnique | src/cache.rs:81-88 | in a distinct key list, the position found by the reverse search is the key's only position |
| LruCache.DistinctCard | src/cache.rs:37-39 | a list of distinct keys has as many elements as positions, so the map has as many entries as there are keys |
| LruCache.Rotated | src/cache.rs:89 | defines `keys[i..].rotate_left(1)`: the prefix before `i`, the keys after `i`, then `keys[i]` |
| LruCache.RotatedAt | src/cache.rs:89 | rotating `keys[i..]` left by one keeps the prefix, shifts the rest one place left and puts `keys[i]` last |
| LruCache.RotatedKeeps | src/cache.rs:89 | the rotation keeps the set of keys and keeps them distinct |
| LruCache.Without | src/cache.rs:80-90 | removing a key from a list leaves no occurrence of it |
| LruCache.WithoutAbsent | src/cache.rs:80-90 | removing a key that is absent changes nothing |
| LruCache.WithoutConcat | src/cache.rs:80-90 | removal distributes over concatenation, so the other keys keep their relative order |
| LruCache.Promote | src/cache.rs:80-90 | defines `lift_up`: rotate from the position of the key's last occurrence |
| LruCache.SplitAtKey | src/cache.rs:81-88 | a distinct list splits at the found position into the keys before, the key, and the keys after, neither part holding the key |
| LruCache.WithoutSplit | src/cache.rs:80-90 | removing a key from `a + [key] + b`, where neither part holds it, leaves `a + b` |
| LruCache.PromoteIsMoveToBack | src/cache.rs:80-90 | `lift_up` moves the key to the back and keeps every other key in its relative order |
| LruCache.PromoteLast | src/cache.rs:80-90 | lifting the key that is already at the back leaves the order unchanged |
| LruCache.Inv | src/cache.rs:37-48 | defines the invariant: the map's keys are the elements of `keys`, `keys` has no duplicates, and the map holds as many entries as there are keys, at most the capacity |
| LruCache.New | src/cache.rs:42-48 | a new LRU is empty, has capacity `size` and satisfies the invariant |
| LruCache.Admit | src/cache.rs:62-73 | defines the vacant branch: nothing with capacity 0; when full, `keys[0]` leaves `keys` and `map` and the key is appended; otherwise the key is appended |
| LruCache.Resolve | src/cache.rs:50-78 | defines a fetch: a hit returns the cached value and promotes the key; a miss returns `load(key)` and admits it |
| LruCache.PromoteKeepsInv | src/cache.rs:57-60 | a hit's promotion keeps the invariant |
| LruCache.ShiftAppendKeeps | src/cache.rs:65-67 | dropping the front key and appending a fresh one keeps the keys distinct and swaps exactly those two in the key set |
| LruCache.AdmitKeepsInv | src/cache.rs:62-73 | admitting a missed key keeps the invariant and the capacity |
| LruCache.EvictKeepsInv | src/cache.rs:65-69 | evicting the front key and appending the new one, in `keys` and in `map`, keeps the invariant |
| LruCache.AppendKeepsInv | src/cache.rs:70-72 | appending a missed key when there is room keeps the invariant |
| LruCache.ResolveKeepsInv | src/cache.rs:50-78 | every fetch keeps the invariant and the capacity |
| LruCache.ZeroCapacity | src/cache.rs:64 | with capacity 0 the LRU is empty, and a fetch returns the storage answer and changes nothing |
| LruCache.ZeroCapacityForever | src/cache.rs:64 | with capacity 0 the LRU stays empty over any run, and every fetch returns the storage answer |
| LruCache.Hit | src/cache.rs:57-60 | on a hit the result does not depend on storage, the cached value (`Some` or `None`) is returned, the map is unchanged and the key moves to the back |
| LruCache.Miss | src/cache.rs:62-76 | on a miss with room the storage answer is returned and appended; when full, `keys[0]` leaves both `keys` and `map`, and the new key is appended with its value |
| LruCache.NegativeCaching | src/cache.rs:38 | after a miss answered `None`, the key is cached as `None`, and fetching it again returns `None` whatever storage says now and changes nothing |
| LruCache.Run | src/cache.rs:50-78 | any sequence of fetches from a valid LRU ends in a valid LRU of the same capacity |
| LruCache.Links | src/cache.rs:50-78 | a run of fetches yields one value per fetch |
| LruCache.RunOne | src/cache.rs:50-78 | a run of one fetch is that fetch |
| LruCache.RunAppend | src/cache.rs:50-78 | running `a + b` is running `a` and then `b` |
| LruCache.FromEmpty | src/cache.rs:56-76 | from an empty cache, with storage unchanged, the values of a run are the storage answers for its keys, in order |
| LruCache.RunSnoc | src/cache.rs:50-78 | extending a run by one fetch extends its state and its values by that fetch |
| LruCache.FillInOrder | src/cache.rs:70-72 | fresh distinct keys that fit are appended in fetch order |
| LruCache.ResolveAgrees | src/cache.rs:56-76 | while storage is unchanged, a fetch returns the storage answer and the cache keeps agreeing with storage |
| LruCache.RunAgrees | src/cache.rs:56-76 | while storage is unchanged, every fetch of a run returns the storage answer for its key |
| LruCache.RunChanging | src/cache.rs:50-78 | a run of fetches against storage that may change between fetches keeps the invariant and the capacity |
| LruCache.OrderIgnoresStorage | src/cache.rs:50-90 | from states with the same keys and capacity, a run against changing storage leaves the same keys as a run against any one storage function |
| LruCache.OrderUnderChangingStorage | src/cache.rs:42-90 | from a new LRU, a run against changing storage has the reference recency order `Order` |
| LruCache.ResolveTouches | src/cache.rs:50-90 | the recency order after a fetch is the reference `Touch` of the order before it |
| LruCache.RunOrder | src/cache.rs:42-90 | a run from a new LRU has exactly the reference recency order `Order`, and its map has as many entries |
| LruCache.EvictsEarliest | src/cache.rs:65-69 | fetching distinct keys into a cache one too small evicts the first key fetched and keeps the rest in order |
| LruCache.PrefixDistinct | src/cache.rs:39 | the keys before the last one of a distinct list are distinct and do not contain the last one |
| LruCache.Ages | src/cache.rs:50-78 | a fetch of another key removes `k` only by evicting it from the front of a full cache, and adds at most that key after `k` |
| LruCache.AgesOnHit | src/cache.rs:57-60 | a hit on another key keeps `k` and adds at most that key after it |
| LruCache.RotatedAfter | src/cache.rs:89 | the rotation maps a position to its new place and puts after it only what was after it, plus the rotated key |
| LruCache.AgesOnEviction | src/cache.rs:65-69 | a miss on a full cache removes `k` only when `k` is the front key |
| LruCache.AgesOnAppend | src/cache.rs:70-72 | a miss with room keeps `k` and adds only the new key after it |
| LruCache.EvictionNeedsRoom | src/cache.rs:65-66 | when a miss on a full cache evicts the front key, the keys after it, together with any set that holds the missed key, number at least the capacity |
| LruCache.Survives | src/cache.rs:50-90 | a cached key survives a run of other keys when the keys more recent than it, together with the keys fetched, are fewer than the capacity |
| LruCache.SurvivesOne | src/cache.rs:50-90 | one step of `Survives`: the first fetch keeps the key and the bound for the rest |
| LruCache.HitSurvives | src/cache.rs:57-60 | after a hit, the key survives any run of fewer distinct other keys than the capacity |
| LruCache.Lru.constructor | src/cache.rs:42-48 | a new LRU of capacity `size` is empty and valid |
| LruCache.Lru.RevPosition | src/cache.rs:81-86 | the reverse search across the stored keys finds the key exactly when it is present, at distance `len - 1 - LastIndex` from the back, which is what `iter().rev().position` gives |
| LruCache.Lru.RotateLeft | src/cache.rs:89 | the in-place rotation of `keys[from..len]` gives `Rotated` and leaves the spare capacity alone |
| LruCache.Lru.RemoveFront | src/cache.rs:66 | `keys.remove(0)` returns the front key and shifts the rest down by one |
| LruCache.Lru.Push | src/cache.rs:67 | `keys.push` appends the key |
| LruCache.Lru.LiftUp | src/cache.rs:80-90 | a key present in the map is always found (the `expect` never fires), and the keys become `Promote` of the old keys |
| LruCache.Lru.Fetch | src/cache.rs:50-78 | the new state and the value are those of `Resolve`; storage is consulted exactly on a miss; the invariant is kept |
| LruCache.Lru.AdmitMiss | src/cache.rs:62-76 | the admission of a missed key is `Admit`, whether the capacity is 0, the cache is full or it has room |
| LruCache.Cache.constructor | src/cache.rs:18-23 | a new cache holds the storage handle and an empty LRU of the given size |
| LruCache.Cache.Store | src/cache.rs:25-27 | a store sends one `Store` event to storage and leaves the LRU unchanged |
| CacheTraces.TestStorage | src/cache.rs:199-211 | the tests' storage knows exactly the keys `ak`, `bk` and `ck` |
| CacheTraces.TestValues | src/cache.rs:199-211 | its answers are `av`, `bv`, `cv` and `None` for `dk`, and the four test keys are distinct |
| CacheTraces.CacheZero | src/cache.rs:98-110 | with capacity 0 both fetches return the storage answer and the LRU stays empty |
| CacheTraces.OrderOne | src/cache.rs:113-133 | the reference recency orders of the capacity-1 trace are `[a]`, `[a]` after a hit, then `[b]`, for any distinct keys |
| CacheTraces.OrderTwo | src/cache.rs:136-174 | the reference recency orders of the capacity-2 trace are `[a]`, `[a,b]`, `[b,c]`, `[c,b]`, `[b,d]`, `[b,d]`, for any distinct keys |
| CacheTraces.OrderThree | src/cache.rs:177-197 | the reference recency orders of the capacity-3 trace keep three fresh keys in fetch order |
| CacheTraces.CacheOneValues | src/cache.rs:113-133 | the three fetches of `cache_1` return `av`, `av` and `bv` |
| CacheTraces.CacheOneStates | src/cache.rs:113-133 | after each fetch of `cache_1` the map holds one entry and the keys are `[ak]`, `[ak]`, `[bk]` |
| CacheTraces.CacheTwoValues | src/cache.rs:136-174 | the six fetches of `cache_2` return `av`, `bv`, `cv`, `bv`, `None`, `None` |
| CacheTraces.CacheTwoStates | src/cache.rs:136-174 | after each fetch of `cache_2` the map holds 1, 2, 2, 2, 2, 2 entries and the keys are `[ak]`, `[ak,bk]`, `[bk,ck]`, `[ck,bk]`, `[bk,dk]`, `[bk,dk]` |
| CacheTraces.CacheThreeValues | src/cache.rs:177-197 | the three fetches of `cache_3` return `av`, `bv` and `cv` |
| CacheTraces.CacheThreeStates | src/cache.rs:177-197 | after each fetch of `cache_3` the map holds 1, 2, 3 entries and the keys are `[ak]`, `[ak,bk]`, `[ak,bk,ck]` |
| Db.Table | src/db.rs:87-94 | defines the reference table: every `Store` applied in order as an upsert, loads changing nothing |
| Db.Serve | src/db.rs:47-59 | defines the loop: events taken in receipt order, a store upserts, a load replies with the lookup, and a failing operation ends the loop |
| Db.Lookup | src/db.rs:103-108 | a lookup finds a value exactly when the key has a row, and that row's value |
| Db.Database.constructor | src/db.rs:10-13 | opening the store keeps the rows already persisted |
| Db.Database.StoreLink | src/db.rs:87-101 | the statement fails exactly on an I/O error and then changes nothing; otherwise it upserts the key with the link |
| Db.Database.LoadLink | src/db.rs:103-108 | the query fails exactly on an I/O error; otherwise it answers `Some` of the row's value exactly when the key has a row |
| Db.Service.constructor | src/db.rs:16 | the service owns the database |
| Db.Service.Run | src/db.rs:47-59 | the loop's final table, its replies and its reason for stopping are those of `Serve` over the events received |
| Db.Access.constructor | src/db.rs:15-16 | a new handle has sent nothing |
| Db.Access.Store | src/db.rs:23-25 | a store enqueues one `Store` event |
| Db.Access.Load | src/db.rs:27-31 | a load enqueues one `Load` event, and its reply is the one at the number of loads sent before it |
| Db.FaultIsFinal | src/db.rs:51-53 | after a storage error no later event changes the table or gets a reply |
| Db.HealthyServe | src/db.rs:49-58 | with no storage error the loop ends when the channel closes, the table is the upserts in order, and there is one reply per load |
| Db.ExitReason | src/db.rs:50-56 | the loop ends normally exactly when no storage operation fails; otherwise it stops at the first failing event |
| Db.StopsAtFault | src/db.rs:51-53 | at the first failure the loop stops with the table and replies of the events before it |
| Db.LoadCountGrows | src/db.rs:27-31 | a longer prefix of the events holds at least as many loads, so tickets grow with the order of sending |
| Db.UnansweredAfterFault | src/db.rs:27-58 | after a failure at event `f`, every load from `f` on has a ticket at or beyond the number of replies, so it is never answered |
| Db.RepliesGrow | src/db.rs:49-58 | the replies to a prefix of the events are a prefix of the replies |
| Db.ReplyAt | src/db.rs:49-58 | each load before any failure is answered with the lookup in the table left by exactly the events received before it |
| Db.StoreUpserts | src/db.rs:87-94 | after `Store(k, v)` the key `k` maps to `v`, and every other key keeps its value |
| Db.TableAppend | src/db.rs:49-58 | processing `a + b` is processing `a` and then `b` |
| Db.TableUntouched | src/db.rs:87-94 | events that store no value for a key leave its lookup unchanged |
| Db.StoreThenLoad | src/db.rs:51-55 | a load after `Store(k, v)` with no store of `k` in between replies `Some(v)` |
| Db.NeverStored | src/db.rs:103-107 | a load of a key that has no row and was never stored replies `None` |
| Db.OneReplyPerLoad | src/db.rs:51-55 | without a failure each load gets exactly one reply, in receipt order, and a store gets none |
| Db.SecondStoreWins | src/db.rs:87-94 | a second store of the same key replaces the first |

## Left out

- Concurrency is left out: the `Arc<RwLock<Lru>>` around the LRU, the write lock held across the await in `Cache::fetch`, and the tokio channels with their bound of 8 and its backpressure. The channel is modelled as a sequential queue of events.
- `Cache::fetch`, which locks the LRU and passes `Access::load` as the storage callback, is not a separate member. `Fetch`'s storage is any function, and `RunAgrees` states what the composition returns while storage is unchanged.
- Db.Service.Run: the events are the whole sequence the channel yields before it closes. Interleaving a producer with the loop is not modelled.
- Db.Access.Load: the reply is stated as a ticket, not as an awaited value. When the storage operation of event `f` fails, the service task panics at `expect("io error")` (src/db.rs:51, 53). That drops the receiver and every pending reply sender. The loads the channel had already accepted from index `f` on, the failing load included, have tickets at or beyond the number of replies (`UnansweredAfterFault`). Their callers would panic at `expect("request")` (src/db.rs:30). That panic is not modelled.
- Db.Access.Store and Db.Access.Load: `Access` has no notion of a closed channel, so it keeps appending to `sent` after the service has stopped. In the source, a send after the receiver is dropped panics at `expect` in `send` (src/db.rs:37), before a load can await its reply. That panic is left out.
- The panic on a failed reply send (src/db.rs:54) is left out. It needs a caller that has dropped its reply receiver, which only happens under concurrency.
- SQL and the SQLite connection are reduced to their meaning as an upsert and a point lookup on a map: `Connection::open`, `CREATE TABLE IF NOT EXISTS`, prepared statements and row decoding. An I/O error is an input (`failing`, `faults`), not something the model produces.
- The `println!` log line after a store (src/db.rs:97-98) is left out.
- `Vec::with_capacity` may over-allocate. The model takes the capacity to be exactly `size`.
- A cached link is not refreshed when the same key is stored again later. `Hit` shows that a hit's value does not depend on storage, so the cache can serve a stale value; the model states this but proves no freshness property.
- LruCache.Run: a run fixes one storage function. Between fetches in the program, storage can change through `Cache::store`, which bypasses the LRU. `OrderIgnoresStorage` and `OrderUnderChangingStorage` prove that the order of keys does not depend on storage, even when it changes between fetches; the value lemmas (`RunAgrees`, `FromEmpty`, `ZeroCapacityForever`) cover unchanged storage only.
- The pure LRU model is generic in the key type, and `Lru` instantiates it with string keys. Sharing keys through `Arc<str>` is modelled as plain values.
- src/config.rs, src/cli.rs, src/server.rs and src/main.rs are not part of this model. They hold configuration parsing, argument parsing, the HTTP handler and process wiring.
