# Cache-aside customer service, modelled in Dafny

The repository serves one entity, `Customer`, from a durable store and keeps
a Redis cache in front of it. The cache policy is written as Spring cache
annotations on two service classes:

- the **Cassandra variant** (`cassandra/.../CustomerServiceImpl.java`) is
  write-through. `add` and `update` put the saved record into the cache,
  `delete` evicts the id's entry and `evictCache` clears the whole namespace;
- the **JPA variant** (`src/.../CustomerServiceImpl.java`) is
  evict-on-update. `update` and `delete` evict the id's entry, and `add`
  evicts nothing.

In both variants `getCustomerById` and `getAll` are read-through. A hit
returns the cached value without calling the repository. A miss calls the
repository and caches the result, except that `getCustomerById` never
caches a null.

The model has two pieces of state: the store (`map<Id, Customer>`) and the
`customers` cache namespace (`map<Key, CacheVal>`). A `Key` is either
`ById(id)` or `AllKey`. `AllKey` stands for the default no-argument key
under which `getAll` is cached. A `CacheVal` is a record, a cached null, or
a list.

The project has three files:

- `cache_aside.dfy` (module `CacheAside`) holds the entity and the state. It
  also holds the steps both variants share: `getCustomerById`, `getAll` and
  `delete`, written as pure functions on the state, together with their lemmas.
- `cassandra_service.dfy` (module `Cassandra`) has the write-through
  variant's class `CustomerServiceImpl`, the spec steps for `add`, `update`
  and `evictCache`, and the lemmas about them.
- `jpa_service.dfy` (module `Jpa`) has the same for the evict-on-update
  variant.

Each class holds `store` and `cache` as fields. Each method writes one
annotation's meaning out as code: on a hit return, on a miss call the store
and fill; always call the store and then put; evict after the call when the
condition holds. Each method's `ensures` ties the new state and its result
to the spec step applied to the old state. The lemmas then state what the
policy promises about those steps:

- read-after-write returns the merged record;
- `delete` is idempotent;
- `evictCache` changes no read's result;
- the collection entry goes stale after an `add`;
- in the Cassandra variant, and in the JPA variant with the corrected `add`,
  every call and any sequence of calls keeps each by-id entry equal to what
  the store holds. A cached null agrees with the store when the id is
  absent. The JPA variant's `add` as written can leave a stale entry (see
  Findings).

Three behaviours of the code are easy to miss:

- `update` on an id that is not stored returns null. In the Cassandra
  variant its `@CachePut` has no `unless` guard, so it puts a null under
  that id. When null values are disabled the cache refuses that null and
  the caller gets an exception. The JPA variant's `update` evicts the id's
  entry instead.
- The JPA variant's `add` does not touch the cache (see Findings), while
  the Cassandra variant's `add` puts the saved record.
- Only the Cassandra class has an evict-all operation. The JPA interface
  declares `evictCache` (src/main/java/com/coderkan/services/CustomerService.java:16)
  and its controller calls it, but the JPA implementation does not define it.

In the JPA variant the id is a primitive `long` filled in by the database's
identity column (src/main/java/com/coderkan/models/Customer.java:16-19), so
no row is ever stored under 0 and the identity column never hands out 0.
The JPA class keeps `0 !in store` as part of its invariant.

## Model

| member | source | states |
|---|---|---|
| `CacheAside.CopyAttributes` | cassandra/src/main/java/com/cassandra/services/impl/CustomerServiceImpl.java:67-73 | the six setter calls on the fetched record give exactly the stored identity with the six incoming attributes; the JPA variant's lines 48-54 are the same |
| `CacheAside.ListingIsTheStore` | cassandra/src/main/java/com/cassandra/services/impl/CustomerServiceImpl.java:43 | a findAll listing has exactly as many entries as the store and holds each stored record, and nothing else |
| `CacheAside.GetCustomerByIdReturnsStoreRecord` | cassandra/src/main/java/com/cassandra/services/impl/CustomerServiceImpl.java:90-95 | while the cache is coherent getCustomerById returns the stored record or null, hit or miss, never changes the store and keeps the cache coherent (same annotation in the JPA variant, lines 66-71) |
| `CacheAside.GetCustomerByIdNeverCachesNotFound` | cassandra/src/main/java/com/cassandra/services/impl/CustomerServiceImpl.java:90-95 | a hit changes nothing; a miss on an absent id changes nothing; a miss on a stored id adds exactly that record under the id; the store never changes |
| `CacheAside.GetCustomerByIdTwice` | cassandra/src/main/java/com/cassandra/services/impl/CustomerServiceImpl.java:90-95 | two lookups of one id give the same result; after a found record the second is a cache hit that changes nothing |
| `CacheAside.GetAllReadsThrough` | cassandra/src/main/java/com/cassandra/services/impl/CustomerServiceImpl.java:39-44 | a hit returns the cached list and changes nothing; a miss returns every stored record exactly once and caches that list under the collection key; the store never changes |
| `CacheAside.GetAllTwice` | cassandra/src/main/java/com/cassandra/services/impl/CustomerServiceImpl.java:39-44 | a second getAll returns the first one's list whatever the store holds by then |
| `CacheAside.GetAllPreservesCoherence` | src/main/java/com/coderkan/services/impl/CustomerServiceImpl.java:24-29 | getAll touches only the collection key, so every by-id entry stays coherent and the cache stays well typed |
| `CacheAside.DeleteRemovesRecordAndEntry` | cassandra/src/main/java/com/cassandra/services/impl/CustomerServiceImpl.java:82-88 | delete removes the record when stored, leaves the store unchanged otherwise, always evicts the id's entry, and leaves every other record and entry as it was |
| `CacheAside.DeleteIsIdempotent` | cassandra/src/main/java/com/cassandra/services/impl/CustomerServiceImpl.java:82-88 | deleting an id twice leaves the same state as deleting it once (same code in the JPA variant, lines 58-64) |
| `CacheAside.GetAfterDeleteFindsNothing` | src/main/java/com/coderkan/services/impl/CustomerServiceImpl.java:58-71 | after delete(id), getCustomerById(id) misses, returns null and caches nothing |
| `CacheAside.DeletePreservesCoherence` | src/main/java/com/coderkan/services/impl/CustomerServiceImpl.java:58-64 | delete keeps the store keyed by id and the cache well typed and coherent |
| `Cassandra.CustomerServiceImpl.GetAll` | cassandra/src/main/java/com/cassandra/services/impl/CustomerServiceImpl.java:39-44 | the result and new state are those of the read-through step for getAll on the old state |
| `Cassandra.CustomerServiceImpl.Add` | cassandra/src/main/java/com/cassandra/services/impl/CustomerServiceImpl.java:48-53 | add upserts the customer under its own id and puts it under that id in the cache; the other entries are kept |
| `Cassandra.CustomerServiceImpl.Update` | cassandra/src/main/java/com/cassandra/services/impl/CustomerServiceImpl.java:61-75 | update behaves as the update step: the merged record is saved and put under the id, or a null is put (or refused by the cache) when the id is not stored |
| `Cassandra.CustomerServiceImpl.EvictCache` | cassandra/src/main/java/com/cassandra/services/impl/CustomerServiceImpl.java:76-80 | evictCache empties the namespace and keeps the store |
| `Cassandra.CustomerServiceImpl.Delete` | cassandra/src/main/java/com/cassandra/services/impl/CustomerServiceImpl.java:82-88 | delete deletes when existsById holds and evicts the id's entry |
| `Cassandra.CustomerServiceImpl.GetCustomerById` | cassandra/src/main/java/com/cassandra/services/impl/CustomerServiceImpl.java:90-95 | the result is the store's record for the id, or null, hit or miss; the new state is the read-through step's |
| `Cassandra.AddPreservesCoherence` | cassandra/src/main/java/com/cassandra/services/impl/CustomerServiceImpl.java:48-53 | add keeps the store keyed by id and the cache well typed and coherent |
| `Cassandra.AddThenGet` | cassandra/src/main/java/com/cassandra/services/impl/CustomerServiceImpl.java:48-53 | after add(c), getCustomerById(c.id) is a cache hit returning c, and the collection entry is exactly what it was |
| `Cassandra.GetAllAfterAddIsStale` | cassandra/src/main/java/com/cassandra/services/impl/CustomerServiceImpl.java:39-53 | when the cached list listed the store before an add of a new id, the next getAll does not contain the added record |
| `Cassandra.UpdatePresent` | cassandra/src/main/java/com/cassandra/services/impl/CustomerServiceImpl.java:61-75 | on a stored id the result keeps the id and takes exactly the six incoming attributes; it is saved under the id and put under the id; no other record or entry changes |
| `Cassandra.UpdateMissing` | cassandra/src/main/java/com/cassandra/services/impl/CustomerServiceImpl.java:61-66 | on an absent id the store is unchanged; with null values allowed the result is null and the cache becomes exactly the old cache with a null put under the id, so every other entry (the collection entry included) is kept and the next lookup is a hit returning null; otherwise the put is refused and nothing changes |
| `Cassandra.UpdateThenGet` | cassandra/src/main/java/com/cassandra/services/impl/CustomerServiceImpl.java:61-95 | after an update of a stored id, getCustomerById returns the merged record from the cache and changes nothing |
| `Cassandra.UpdatePreservesCoherence` | cassandra/src/main/java/com/cassandra/services/impl/CustomerServiceImpl.java:61-75 | update keeps the cache coherent in every branch, the null put of a missing id included |
| `Cassandra.EvictCacheKeepsReads` | cassandra/src/main/java/com/cassandra/services/impl/CustomerServiceImpl.java:76-80 | evictCache removes every key, by-id and collection alike, keeps the store, and changes no getCustomerById result while the cache is coherent |
| `Cassandra.ApplyPreservesCoherence` | cassandra/src/main/java/com/cassandra/services/impl/CustomerServiceImpl.java:39-95 | every one of the six operations keeps the store keyed by id and the cache well typed and coherent |
| `Cassandra.RunPreservesCoherence` | cassandra/src/main/java/com/cassandra/services/impl/CustomerServiceImpl.java:39-95 | any sequence of calls keeps every by-id entry equal to what the store holds |
| `Cassandra.AddReadEvictDeleteSession` | cassandra/src/main/java/com/cassandra/services/impl/CustomerServiceImpl.java:48-95 | add, two reads (the second a hit), evictCache, a read from the store, delete, a read that finds nothing, and a second delete that changes nothing |
| `Jpa.CustomerServiceImpl.GetAll` | src/main/java/com/coderkan/services/impl/CustomerServiceImpl.java:24-29 | the result and new state are those of the read-through step for getAll; coherence is kept |
| `Jpa.CustomerServiceImpl.Add` | src/main/java/com/coderkan/services/impl/CustomerServiceImpl.java:31-35 | add saves (merge into the named row, or persist under the identity column's next value) and leaves the cache as it was; coherence is kept when a new row is written |
| `Jpa.CustomerServiceImpl.Update` | src/main/java/com/coderkan/services/impl/CustomerServiceImpl.java:40-56 | update saves the merged record when the id is stored, returns null otherwise, and evicts the id's entry in both cases; coherence is kept |
| `Jpa.CustomerServiceImpl.Delete` | src/main/java/com/coderkan/services/impl/CustomerServiceImpl.java:58-64 | delete deletes when existsById holds and evicts the id's entry; coherence is kept |
| `Jpa.CustomerServiceImpl.GetCustomerById` | src/main/java/com/coderkan/services/impl/CustomerServiceImpl.java:66-71 | read-through under the id with no null cached; while coherent the result is the store's record or null |
| `Jpa.SavedKeepsStoreKeyed` | src/main/java/com/coderkan/services/impl/CustomerServiceImpl.java:31-35 | save writes the record under its own nonzero id, overwrites a row exactly when the customer's nonzero id names one, and otherwise writes under the identity column's next value |
| `Jpa.AddNewRowPreservesCoherence` | src/main/java/com/coderkan/services/impl/CustomerServiceImpl.java:31-35 | add as written keeps every invariant (no row under 0 included), and keeps coherence when it writes a new row |
| `Jpa.AddOverExistingRowLeavesStaleEntry` | src/main/java/com/coderkan/services/impl/CustomerServiceImpl.java:31-35 | a coherent state in which add as written, given the id of a stored row, overwrites the row but leaves the old record cached, so getCustomerById returns the old record |
| `Jpa.AddEvictingPreservesCoherence` | src/main/java/com/coderkan/services/impl/CustomerServiceImpl.java:31-35 | add with the eviction keyed on the saved record keeps every invariant in every case |
| `Jpa.AddEvictingThenGet` | src/main/java/com/coderkan/services/impl/CustomerServiceImpl.java:31-35 | after the corrected add, the saved id has no entry and getCustomerById returns the saved record; a customer posted with id 0 gets the identity column's value |
| `Jpa.UpdateAlwaysEvicts` | src/main/java/com/coderkan/services/impl/CustomerServiceImpl.java:40-56 | update evicts the id's entry whether or not the id is stored and keeps every other entry; on an absent id it returns null and keeps the store |
| `Jpa.UpdateThenGet` | src/main/java/com/coderkan/services/impl/CustomerServiceImpl.java:40-71 | after an update of a stored id the result keeps the id and takes exactly the six incoming attributes, the store holds it, and getCustomerById misses, returns it from the store and caches it |
| `Jpa.UpdateSavesInPlace` | src/main/java/com/coderkan/services/impl/CustomerServiceImpl.java:43-55 | while no row is stored under 0, the record update saves carries the stored id, so `save` merges it into that row whatever the identity column's next value is |
| `Jpa.UpdatePreservesCoherence` | src/main/java/com/coderkan/services/impl/CustomerServiceImpl.java:40-56 | update keeps the stored ids, keeps the store keyed by id, and keeps the cache well typed, free of nulls and coherent |
| `Jpa.ApplyPreservesInvariant` | src/main/java/com/coderkan/services/impl/CustomerServiceImpl.java:24-71 | every operation, with the corrected add, keeps the invariant |
| `Jpa.RunPreservesInvariant` | src/main/java/com/coderkan/services/impl/CustomerServiceImpl.java:24-71 | any sequence of calls to the corrected service keeps every by-id entry equal to the stored record and never caches a null |

## Left out

- The HTTP controllers and their id parsing (`Long.valueOf`, `UUID.fromString`) are request plumbing. The model starts at the service call.
- Redis connection, pool, serializer and telemetry beans are library wiring. So are `sayHello`, the Micrometer observations and the logging.
- `waitSomeTime` only adds latency and has no logical effect.
- Time-to-live expiry is left out because the model has no clock. The cache state is the state before any entry expires. Expiry only removes entries, so it cannot break any by-id coherence that the model proves.
- The Cassandra variant's cache configuration is not part of this model. Its null-value setting is the constructor parameter `cacheNullValues`. In the JPA variant no null is ever put, so that setting has no effect there.
- The repository's order for `findAll` is unknown. `GetAll` takes the listing `rows` that the repository returns, constrained only to hold each stored record once.
- Ids are generated outside the model. The Cassandra id is assigned by `UUID.randomUUID()` before `add` is called, so `add` sees it. The JPA identity column's next value is the `nextId` parameter, which must be nonzero and not already stored.
- `Jpa.CustomerServiceImpl.Add`: when a nonzero posted id names no row, the model persists the record under the identity column's next value. This is what Hibernate's merge does for an unknown detached id in the versions before 6.6; later versions raise an error instead.
- Null arguments are left out. A null id, or a null customer, makes the repository or `customer.getId()` throw during the call, before any after-call cache annotation runs. Ids and customers in the model are never null.
- Attributes are strings. A Java null attribute is copied like every other value and is not modelled separately.
- Concurrent calls, last-write-wins races at Redis, and running without a reachable cache or store are left out. None of them appear in the modelled code.
- The JPA class has no `evictCache` because the source class defines none. The default `customerCache` namespace is never used, because every method names `customers`.
- `Jpa.Run`, and so `Jpa.RunPreservesInvariant`, pass calls through the corrected `add`. The as-written `add` is covered by `Jpa.AddNewRowPreservesCoherence` and `Jpa.AddOverExistingRowLeavesStaleEntry`.

## Findings

| source | as written | input that shows it | evidently intended | confidence | as-written member | corrected member |
|---|---|---|---|---|---|---|
| src/main/java/com/coderkan/services/impl/CustomerServiceImpl.java:31-35 | the eviction on `add` is keyed and conditioned on `#id`, but `add` has no parameter of that name, so the condition is false and nothing is ever evicted | customer 5 is stored and cached; a POST to add carries id 5 with a new name; save merges it into row 5, and getCustomerById(5) keeps returning the old name from the cache | evict the entry of the record just saved (`key = "#result.id"`) | medium; not executed | `Jpa.AddOverExistingRowLeavesStaleEntry` | `Jpa.AddEvictingPreservesCoherence` |
