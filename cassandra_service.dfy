/**
 * The Cassandra-backed customer service: write-through caching.
 *
 * add and update put the saved record into the cache under the argument's
 * id (@CachePut), delete evicts that id, evictCache clears the whole
 * "customers" namespace, and the two reads are read-through (@Cacheable).
 * Ids are UUIDs, generated by the client side before add is called.
 */
module Cassandra {
  import opened CacheAside

  /** A 128-bit UUID, as its unsigned value. */
  newtype Uuid = x: int | 0 <= x < 0x1_0000_0000_0000_0000_0000_0000_0000_0000

  /**
   * What update hands back: the method's result (null when the id is not
   * stored), or the IllegalArgumentException the Redis cache raises when
   * @CachePut tries to store that null while null values are disabled.
   */
  datatype Outcome<T> = Returned(value: T) | NullRejected

  // ---------------------------------------------------------------------
  // The steps particular to this variant.
  // ---------------------------------------------------------------------

  /** add(customer): save (an upsert under customer.id), then @CachePut(key = "#customer.id"). */
  function AddStep(s: State<Uuid>, customer: Customer<Uuid>): Step<Customer<Uuid>, Uuid>
  {
    Step(customer, State(s.store[customer.id := customer], s.cache[ById(customer.id) := Record(customer)]))
  }

  /**
   * update(customer): null when customer.id is not stored; otherwise the
   * stored record with the six attributes of customer, saved. Then
   * @CachePut(key = "#customer.id") with no unless guard puts the result,
   * null included, which the cache refuses when null values are disabled.
   */
  function UpdateStep(s: State<Uuid>, customer: Customer<Uuid>, cacheNullValues: bool)
    : Step<Outcome<Option<Customer<Uuid>>>, Uuid>
  {
    var result := if customer.id in s.store then Some(Merged(s.store[customer.id], customer)) else None;
    var store := if result.Some? then s.store[customer.id := result.value] else s.store;
    if result.None? && !cacheNullValues then Step(NullRejected, State(store, s.cache))
    else Step(Returned(result), State(store, s.cache[ById(customer.id) := Encode(result)]))
  }

  /** evictCache(): @CacheEvict(allEntries = true) over an empty body. */
  function EvictCacheStep(s: State<Uuid>): State<Uuid>
  {
    s.(cache := map[])
  }

  // ---------------------------------------------------------------------
  // The service object: the store and the cache it sits between.
  // ---------------------------------------------------------------------

  class CustomerServiceImpl {
    /** The Cassandra table, by id. */
    var store: Store<Uuid>
    /** The "customers" namespace of the Redis cache. */
    var cache: Cache<Uuid>
    /** Whether the cache manager allows null values. */
    const cacheNullValues: bool

    function Snapshot(): State<Uuid>
      reads this
    {
      State(store, cache)
    }

    ghost predicate Valid()
      reads this
    {
      KeyedById(store) && WellTyped(cache) && Coherent(Snapshot())
    }

    constructor (cacheNullValues: bool, store: Store<Uuid>)
      requires KeyedById(store)
      ensures Valid()
      ensures this.store == store && cache == map[] && this.cacheNullValues == cacheNullValues
    {
      this.store := store;
      this.cache := map[];
      this.cacheNullValues := cacheNullValues;
    }

    /** @Cacheable on findAll(); rows is what findAll() returns. */
    method GetAll(rows: seq<Customer<Uuid>>) returns (r: seq<Customer<Uuid>>)
      requires Valid() && IsListing(rows, store)
      modifies this
      ensures Valid()
      ensures Step(r, Snapshot()) == GetAllStep(old(Snapshot()), rows)
    {
      if AllKey in cache {
        r := AsRows(cache[AllKey]);
        return;
      }
      r := rows;
      cache := cache[AllKey := Rows(r)];
    }

    method Add(customer: Customer<Uuid>) returns (r: Customer<Uuid>)
      requires Valid()
      modifies this
      ensures Valid()
      ensures Step(r, Snapshot()) == AddStep(old(Snapshot()), customer)
    {
      store := store[customer.id := customer];
      r := customer;
      cache := cache[ById(customer.id) := Record(r)];
    }

    method Update(customer: Customer<Uuid>) returns (r: Outcome<Option<Customer<Uuid>>>)
      requires Valid()
      modifies this
      ensures Valid()
      ensures Step(r, Snapshot()) == UpdateStep(old(Snapshot()), customer, cacheNullValues)
    {
      var result: Option<Customer<Uuid>>;
      var found := FindById(store, customer.id);
      if found.None? {
        result := None;
      } else {
        var rep := CopyAttributes(found.value, customer);
        store := store[rep.id := rep];
        result := Some(rep);
      }
      if result.None? && !cacheNullValues {
        r := NullRejected;
        return;
      }
      cache := cache[ById(customer.id) := Encode(result)];
      r := Returned(result);
    }

    method EvictCache()
      requires Valid()
      modifies this
      ensures Valid()
      ensures Snapshot() == EvictCacheStep(old(Snapshot()))
    {
      cache := map[];
    }

    method Delete(id: Uuid)
      requires Valid()
      modifies this
      ensures Valid()
      ensures Snapshot() == DeleteStep(old(Snapshot()), id)
    {
      if id in store {
        store := store - {id};
      }
      cache := cache - {ById(id)};
    }

    method GetCustomerById(id: Uuid) returns (r: Option<Customer<Uuid>>)
      requires Valid()
      modifies this
      ensures Valid()
      ensures r == FindById(old(store), id)
      ensures Step(r, Snapshot()) == GetCustomerByIdStep(old(Snapshot()), id)
    {
      if ById(id) in cache {
        r := AsCustomer(cache[ById(id)]);
        return;
      }
      r := FindById(store, id);
      if r.Some? {
        cache := cache[ById(id) := Record(r.value)];
      }
    }
  }

  // ---------------------------------------------------------------------
  // Properties of the write-through policy.
  // ---------------------------------------------------------------------

  /** add keeps the store keyed by id and the cache well typed and coherent. */
  lemma AddPreservesCoherence(s: State<Uuid>, customer: Customer<Uuid>)
    requires KeyedById(s.store) && WellTyped(s.cache) && Coherent(s)
    ensures var p := AddStep(s, customer).post;
      KeyedById(p.store) && WellTyped(p.cache) && Coherent(p)
  {
  }

  /**
   * After add(c), getCustomerById(c.id) is a cache hit returning c, and the
   * collection entry is what it was: a cached getAll still lists the
   * records from before the add.
   */
  lemma AddThenGet(s: State<Uuid>, c: Customer<Uuid>)
    ensures var a := AddStep(s, c);
      && a.result == c
      && GetCustomerByIdStep(a.post, c.id) == Step(Some(c), a.post)
      && (AllKey in a.post.cache <==> AllKey in s.cache)
      && (AllKey in s.cache ==> a.post.cache[AllKey] == s.cache[AllKey])
  {
  }

  /**
   * The collection entry is stale after an add of a new id: if it listed
   * the store before the add, a following getAll does not contain the
   * added record.
   */
  lemma GetAllAfterAddIsStale(s: State<Uuid>, c: Customer<Uuid>, rows: seq<Customer<Uuid>>)
    requires AllKey in s.cache && IsListing(AsRows(s.cache[AllKey]), s.store)
    requires c.id !in s.store
    ensures c !in GetAllStep(AddStep(s, c).post, rows).result
  {
    ListingIsTheStore(AsRows(s.cache[AllKey]), s.store);
  }

  /**
   * update on a stored id returns the stored identity with the six incoming
   * attributes, saves exactly that record, puts it under the id, and
   * changes no other store or cache entry.
   */
  lemma UpdatePresent(s: State<Uuid>, c: Customer<Uuid>, cacheNullValues: bool)
    requires KeyedById(s.store) && c.id in s.store
    ensures var u := UpdateStep(s, c, cacheNullValues);
      && u.result.Returned? && u.result.value.Some?
      && var m := u.result.value.value;
      && m.id == c.id
      && m.name == c.name && m.contactName == c.contactName && m.address == c.address
      && m.city == c.city && m.postalCode == c.postalCode && m.country == c.country
      && u.post.store.Keys == s.store.Keys && u.post.store[c.id] == m
      && (forall id :: id in s.store && id != c.id ==> u.post.store[id] == s.store[id])
      && u.post.cache == s.cache[ById(c.id) := Record(m)]
  {
  }

  /**
   * update on an id that is not stored leaves the store alone. With null
   * values allowed it returns null and puts that null under the id, keeping
   * every other entry (the collection entry included), so the next
   * getCustomerById(id) is a hit returning null; with null values disabled
   * the cache refuses the put and nothing changes.
   */
  lemma UpdateMissing(s: State<Uuid>, c: Customer<Uuid>, cacheNullValues: bool)
    requires c.id !in s.store
    ensures var u := UpdateStep(s, c, cacheNullValues);
      && u.post.store == s.store
      && (cacheNullValues ==>
            && u.result == Returned(None)
            && u.post.cache == s.cache[ById(c.id) := Null]
            && ById(c.id) in u.post.cache
            && GetCustomerByIdStep(u.post, c.id) == Step(None, u.post))
      && (!cacheNullValues ==> u == Step(NullRejected, s))
  {
  }

  /**
   * Read after write: after an update of a stored id, getCustomerById
   * returns the merged record from the cache without touching the store.
   */
  lemma UpdateThenGet(s: State<Uuid>, c: Customer<Uuid>, cacheNullValues: bool)
    requires KeyedById(s.store) && c.id in s.store
    ensures var u := UpdateStep(s, c, cacheNullValues);
      GetCustomerByIdStep(u.post, c.id) == Step(Some(Merged(s.store[c.id], c)), u.post)
  {
  }

  /**
   * update keeps the cache coherent, in every branch: the cached null of a
   * missing id agrees with the store, which does not hold that id.
   */
  lemma UpdatePreservesCoherence(s: State<Uuid>, c: Customer<Uuid>, cacheNullValues: bool)
    requires KeyedById(s.store) && WellTyped(s.cache) && Coherent(s)
    ensures var p := UpdateStep(s, c, cacheNullValues).post;
      KeyedById(p.store) && WellTyped(p.cache) && Coherent(p)
  {
  }

  /**
   * evictCache empties the whole namespace, by-id entries and the
   * collection entry, leaves the store as it is, and so changes no
   * getCustomerById result while the cache is coherent.
   */
  lemma EvictCacheKeepsReads(s: State<Uuid>)
    requires Coherent(s)
    ensures EvictCacheStep(s).store == s.store
    ensures forall k :: k !in EvictCacheStep(s).cache
    ensures forall id :: GetCustomerByIdStep(EvictCacheStep(s), id).result == GetCustomerByIdStep(s, id).result
  {
  }

  // ---------------------------------------------------------------------
  // Any sequence of calls keeps the invariant.
  // ---------------------------------------------------------------------

  /** One call to the service, with the value findAll() would return for getAll. */
  datatype Call =
    | GetAllCall(rows: seq<Customer<Uuid>>)
    | AddCall(customer: Customer<Uuid>)
    | UpdateCall(customer: Customer<Uuid>)
    | EvictCacheCall
    | DeleteCall(id: Uuid)
    | GetCustomerByIdCall(id: Uuid)

  function Apply(s: State<Uuid>, call: Call, cacheNullValues: bool): State<Uuid>
  {
    match call
    case GetAllCall(rows) => GetAllStep(s, rows).post
    case AddCall(c) => AddStep(s, c).post
    case UpdateCall(c) => UpdateStep(s, c, cacheNullValues).post
    case EvictCacheCall => EvictCacheStep(s)
    case DeleteCall(id) => DeleteStep(s, id)
    case GetCustomerByIdCall(id) => GetCustomerByIdStep(s, id).post
  }

  function Run(s: State<Uuid>, calls: seq<Call>, cacheNullValues: bool): State<Uuid>
    decreases |calls|
  {
    if calls == [] then s else Run(Apply(s, calls[0], cacheNullValues), calls[1..], cacheNullValues)
  }

  lemma ApplyPreservesCoherence(s: State<Uuid>, call: Call, cacheNullValues: bool)
    requires KeyedById(s.store) && WellTyped(s.cache) && Coherent(s)
    ensures var p := Apply(s, call, cacheNullValues);
      KeyedById(p.store) && WellTyped(p.cache) && Coherent(p)
  {
    match call
    case GetAllCall(rows) => GetAllPreservesCoherence(s, rows);
    case AddCall(c) => AddPreservesCoherence(s, c);
    case UpdateCall(c) => UpdatePreservesCoherence(s, c, cacheNullValues);
    case EvictCacheCall =>
    case DeleteCall(id) => DeletePreservesCoherence(s, id);
    case GetCustomerByIdCall(id) => GetCustomerByIdReturnsStoreRecord(s, id);
  }

  /**
   * Whatever calls are made, every by-id entry keeps agreeing with the
   * store, so every getCustomerById along the way returns the stored record.
   */
  lemma {:induction false} RunPreservesCoherence(s: State<Uuid>, calls: seq<Call>, cacheNullValues: bool)
    requires KeyedById(s.store) && WellTyped(s.cache) && Coherent(s)
    ensures var p := Run(s, calls, cacheNullValues);
      KeyedById(p.store) && WellTyped(p.cache) && Coherent(p)
    decreases |calls|
  {
    if calls != [] {
      ApplyPreservesCoherence(s, calls[0], cacheNullValues);
      RunPreservesCoherence(Apply(s, calls[0], cacheNullValues), calls[1..], cacheNullValues);
    }
  }

  /**
   * A whole session: add c; read it twice (the second read is served from
   * the cache); evict everything; read it again from the store; delete it;
   * read nothing; delete again, which changes nothing.
   */
  lemma AddReadEvictDeleteSession(s: State<Uuid>, c: Customer<Uuid>)
    ensures var s1 := AddStep(s, c).post;
      var g1 := GetCustomerByIdStep(s1, c.id);
      var g2 := GetCustomerByIdStep(g1.post, c.id);
      var e := EvictCacheStep(g2.post);
      var g3 := GetCustomerByIdStep(e, c.id);
      var d := DeleteStep(g3.post, c.id);
      var g4 := GetCustomerByIdStep(d, c.id);
      && g1.result == Some(c) && g2 == g1
      && g3.result == Some(c)
      && g4 == Step(None, d)
      && DeleteStep(g4.post, c.id) == d
  {
  }
}
