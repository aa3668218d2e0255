/**
 * The JPA-backed customer service: evict-on-update caching.
 *
 * Every annotation names the "customers" cache, overriding the class
 * default "customerCache", so all entries share one namespace. update and
 * delete evict the id's entry after the call; the two reads are
 * read-through (@Cacheable) and never cache null. add's eviction names a
 * parameter #id that add does not have, so it never evicts anything. Ids
 * are 64-bit longs handed out by the database's identity column.
 */
module Jpa {
  import opened CacheAside

  /** A Java long. */
  newtype Long = x: int | -0x8000_0000_0000_0000 <= x < 0x8000_0000_0000_0000

  /** No by-id entry holds a cached null: every read here has unless = "#result == null". */
  ghost predicate NoNullEntries(cache: Cache<Long>)
  {
    forall id :: ById(id) in cache ==> cache[ById(id)] != Null
  }

  // ---------------------------------------------------------------------
  // The steps particular to this variant.
  // ---------------------------------------------------------------------

  /**
   * The record save(customer) writes. A customer whose id names a stored
   * row is merged into that row. Otherwise (the id is 0, the value of an
   * unset primitive long, or names no row) it is persisted under nextId,
   * the next value of the identity column.
   */
  function Saved(store: Store<Long>, customer: Customer<Long>, nextId: Long): Customer<Long>
  {
    if customer.id != 0 && customer.id in store then customer else customer.(id := nextId)
  }

  /**
   * add(customer) as written: save, and an @CacheEvict whose condition
   * "#id!=null" reads a variable add does not have. It is null, the
   * condition is false, and the cache is left as it was.
   */
  function AddStep(s: State<Long>, customer: Customer<Long>, nextId: Long): Step<Customer<Long>, Long>
    requires nextId != 0 && nextId !in s.store
  {
    var saved := Saved(s.store, customer, nextId);
    Step(saved, State(s.store[saved.id := saved], s.cache))
  }

  /** add(customer) with the eviction keyed on the saved record: @CacheEvict(key = "#result.id"). */
  function AddEvictingStep(s: State<Long>, customer: Customer<Long>, nextId: Long): Step<Customer<Long>, Long>
    requires nextId != 0 && nextId !in s.store
  {
    var saved := Saved(s.store, customer, nextId);
    Step(saved, State(s.store[saved.id := saved], s.cache - {ById(saved.id)}))
  }

  /**
   * update(customer): null when customer.id is not stored; otherwise the
   * stored record with the six attributes of customer, saved. Then
   * @CacheEvict(key = "#customer?.id", condition = "#customer?.id!=null"):
   * a primitive long is never null, so the id's entry is evicted in both
   * cases.
   */
  function UpdateStep(s: State<Long>, customer: Customer<Long>): Step<Option<Customer<Long>>, Long>
  {
    var result := if customer.id in s.store then Some(Merged(s.store[customer.id], customer)) else None;
    var store := if result.Some? then s.store[customer.id := result.value] else s.store;
    Step(result, State(store, s.cache - {ById(customer.id)}))
  }

  // ---------------------------------------------------------------------
  // The service object.
  // ---------------------------------------------------------------------

  class CustomerServiceImpl {
    /** The customer table, by id. */
    var store: Store<Long>
    /** The "customers" namespace of the Redis cache. */
    var cache: Cache<Long>

    function Snapshot(): State<Long>
      reads this
    {
      State(store, cache)
    }

    /** The identity column never hands out 0, so no row is stored under it. */
    ghost predicate Valid()
      reads this
    {
      KeyedById(store) && 0 !in store && WellTyped(cache) && NoNullEntries(cache)
    }

    constructor (store: Store<Long>)
      requires KeyedById(store) && 0 !in store
      ensures Valid() && Coherent(Snapshot())
      ensures this.store == store && cache == map[]
    {
      this.store := store;
      this.cache := map[];
    }

    /** @Cacheable(cacheNames = "customers") on findAll(); rows is what findAll() returns. */
    method GetAll(rows: seq<Customer<Long>>) returns (r: seq<Customer<Long>>)
      requires Valid() && IsListing(rows, store)
      modifies this
      ensures Valid()
      ensures Step(r, Snapshot()) == GetAllStep(old(Snapshot()), rows)
      ensures Coherent(old(Snapshot())) ==> Coherent(Snapshot())
    {
      if AllKey in cache {
        r := AsRows(cache[AllKey]);
        return;
      }
      r := rows;
      cache := cache[AllKey := Rows(r)];
    }

    /** nextId is the value the identity column would hand out next. */
    method Add(customer: Customer<Long>, nextId: Long) returns (r: Customer<Long>)
      requires Valid() && nextId != 0 && nextId !in store
      modifies this
      ensures Valid()
      ensures Step(r, Snapshot()) == AddStep(old(Snapshot()), customer, nextId)
      ensures Coherent(old(Snapshot())) && r.id !in old(store) ==> Coherent(Snapshot())
    {
      if customer.id != 0 && customer.id in store {
        r := customer;
      } else {
        r := customer.(id := nextId);
      }
      store := store[r.id := r];
      AddNewRowPreservesCoherence(old(Snapshot()), customer, nextId);
    }

    method Update(customer: Customer<Long>) returns (r: Option<Customer<Long>>)
      requires Valid()
      modifies this
      ensures Valid()
      ensures Step(r, Snapshot()) == UpdateStep(old(Snapshot()), customer)
      ensures Coherent(old(Snapshot())) ==> Coherent(Snapshot())
    {
      var found := FindById(store, customer.id);
      if found.None? {
        r := None;
      } else {
        var rep := CopyAttributes(found.value, customer);
        store := store[rep.id := rep];
        r := Some(rep);
      }
      cache := cache - {ById(customer.id)};
    }

    method Delete(id: Long)
      requires Valid()
      modifies this
      ensures Valid()
      ensures Snapshot() == DeleteStep(old(Snapshot()), id)
      ensures Coherent(old(Snapshot())) ==> Coherent(Snapshot())
    {
      if id in store {
        store := store - {id};
      }
      cache := cache - {ById(id)};
    }

    method GetCustomerById(id: Long) returns (r: Option<Customer<Long>>)
      requires Valid()
      modifies this
      ensures Valid()
      ensures Step(r, Snapshot()) == GetCustomerByIdStep(old(Snapshot()), id)
      ensures Coherent(old(Snapshot())) ==> Coherent(Snapshot()) && r == FindById(store, id)
    {
      if ById(id) in cache {
        r := AsCustomer(cache[ById(id)]);
        return;
      }
      r := FindById(store, id);
      if r.Some? {
        cache := cache[ById(id) := Record(r.value)];
      }
    }
  }

  // ---------------------------------------------------------------------
  // Properties of the evict-on-update policy.
  // ---------------------------------------------------------------------

  /**
   * The saved record is stored under its own id: the row the customer's id
   * names, or the identity column's next value.
   */
  lemma SavedKeepsStoreKeyed(store: Store<Long>, customer: Customer<Long>, nextId: Long)
    requires KeyedById(store) && nextId != 0 && nextId !in store
    ensures var saved := Saved(store, customer, nextId);
      && KeyedById(store[saved.id := saved])
      && saved.id != 0
      && (saved.id in store <==> customer.id != 0 && customer.id in store)
      && (saved.id !in store ==> saved == customer.(id := nextId))
  {
  }

  /**
   * add as written keeps the cache coherent when it writes a new row (the
   * usual case: the posted customer carries no id): no entry can exist
   * under an id the store does not hold and the cache holds no nulls.
   */
  lemma AddNewRowPreservesCoherence(s: State<Long>, customer: Customer<Long>, nextId: Long)
    requires KeyedById(s.store) && 0 !in s.store && WellTyped(s.cache) && NoNullEntries(s.cache)
    requires nextId != 0 && nextId !in s.store
    ensures var a := AddStep(s, customer, nextId);
      && KeyedById(a.post.store) && 0 !in a.post.store && WellTyped(a.post.cache) && NoNullEntries(a.post.cache)
      && (Coherent(s) && a.result.id !in s.store ==> Coherent(a.post))
  {
    SavedKeepsStoreKeyed(s.store, customer, nextId);
  }

  /**
   * add as written leaves a stale entry when the posted customer carries
   * the id of a stored row: the row is overwritten by the merge, the entry
   * is not evicted, and getCustomerById keeps returning the old record.
   */
  lemma AddOverExistingRowLeavesStaleEntry()
    ensures var old1 := Customer(5 as Long, "Acme", "Ann", "1 Main St", "Springfield", "11111", "US");
      var new1 := old1.(name := "Acme Corp");
      var s := State(map[5 as Long := old1], map[ById(5 as Long) := Record(old1)]);
      var a := AddStep(s, new1, 6);
      && Coherent(s)
      && a.post.store[5] == new1
      && GetCustomerByIdStep(a.post, 5).result == Some(old1)
      && !Coherent(a.post)
  {
    var old1 := Customer(5 as Long, "Acme", "Ann", "1 Main St", "Springfield", "11111", "US");
    var new1 := old1.(name := "Acme Corp");
    var a := AddStep(State(map[5 as Long := old1], map[ById(5 as Long) := Record(old1)]), new1, 6);
    assert a.post.cache[ById(5)] != Encode(FindById(a.post.store, 5)) by {
      assert old1 != new1 by { assert old1.name != new1.name; }
    }
  }

  /** With the eviction keyed on the saved record, add keeps the cache coherent in every case. */
  lemma AddEvictingPreservesCoherence(s: State<Long>, customer: Customer<Long>, nextId: Long)
    requires KeyedById(s.store) && 0 !in s.store && WellTyped(s.cache) && NoNullEntries(s.cache) && Coherent(s)
    requires nextId != 0 && nextId !in s.store
    ensures var p := AddEvictingStep(s, customer, nextId).post;
      KeyedById(p.store) && 0 !in p.store && WellTyped(p.cache) && NoNullEntries(p.cache) && Coherent(p)
  {
    SavedKeepsStoreKeyed(s.store, customer, nextId);
  }

  /**
   * After add, getCustomerById on the saved id returns the saved record,
   * which the corrected add has evicted so that it is read from the store.
   */
  lemma AddEvictingThenGet(s: State<Long>, customer: Customer<Long>, nextId: Long)
    requires KeyedById(s.store) && nextId != 0 && nextId !in s.store
    ensures var a := AddEvictingStep(s, customer, nextId);
      && ById(a.result.id) !in a.post.cache
      && GetCustomerByIdStep(a.post, a.result.id).result == Some(a.result)
      && (customer.id == 0 ==> a.result == customer.(id := nextId))
  {
    SavedKeepsStoreKeyed(s.store, customer, nextId);
  }

  /**
   * update evicts the id's entry whether or not the id is stored, leaves
   * the store alone and returns null when it is not, and touches no other
   * cache entry.
   */
  lemma UpdateAlwaysEvicts(s: State<Long>, c: Customer<Long>)
    ensures var u := UpdateStep(s, c);
      && ById(c.id) !in u.post.cache
      && (forall k :: k != ById(c.id) ==> (k in u.post.cache <==> k in s.cache))
      && (forall k :: k != ById(c.id) && k in s.cache ==> u.post.cache[k] == s.cache[k])
      && (c.id !in s.store ==> u.result == None && u.post.store == s.store)
  {
  }

  /**
   * Read after write: after an update of a stored id, getCustomerById
   * misses, returns the merged record (stored identity, the six incoming
   * attributes) from the store, and caches it.
   */
  lemma UpdateThenGet(s: State<Long>, c: Customer<Long>)
    requires KeyedById(s.store) && c.id in s.store
    ensures var u := UpdateStep(s, c);
      var m := Merged(s.store[c.id], c);
      && u.result == Some(m)
      && m.id == c.id
      && m.name == c.name && m.contactName == c.contactName && m.address == c.address
      && m.city == c.city && m.postalCode == c.postalCode && m.country == c.country
      && u.post.store == s.store[c.id := m]
      && GetCustomerByIdStep(u.post, c.id) == Step(Some(m), u.post.(cache := u.post.cache[ById(c.id) := Record(m)]))
  {
  }

  /**
   * update's save(repCustomer) is a merge into the stored row: the record
   * it saves carries the stored, nonzero id, so save never persists it as a
   * new row, whatever identity value is next.
   */
  lemma UpdateSavesInPlace(s: State<Long>, c: Customer<Long>, nextId: Long)
    requires KeyedById(s.store) && 0 !in s.store && c.id in s.store
    ensures var u := UpdateStep(s, c);
      var m := Merged(s.store[c.id], c);
      && Saved(s.store, m, nextId) == m
      && u.post.store == s.store[m.id := Saved(s.store, m, nextId)]
  {
  }

  lemma UpdatePreservesCoherence(s: State<Long>, c: Customer<Long>)
    requires KeyedById(s.store) && WellTyped(s.cache) && NoNullEntries(s.cache) && Coherent(s)
    ensures var p := UpdateStep(s, c).post;
      KeyedById(p.store) && p.store.Keys == s.store.Keys
      && WellTyped(p.cache) && NoNullEntries(p.cache) && Coherent(p)
  {
  }

  // ---------------------------------------------------------------------
  // Any sequence of calls to the corrected service keeps the invariant.
  // ---------------------------------------------------------------------

  /** One call; an add carries the identity value the database hands out. */
  datatype Call =
    | GetAllCall(rows: seq<Customer<Long>>)
    | AddCall(customer: Customer<Long>, nextId: Long)
    | UpdateCall(customer: Customer<Long>)
    | DeleteCall(id: Long)
    | GetCustomerByIdCall(id: Long)

  /** One call to the service with the corrected add; None when an identity value is 0 or already taken. */
  function Apply(s: State<Long>, call: Call): Option<State<Long>>
  {
    match call
    case GetAllCall(rows) => Some(GetAllStep(s, rows).post)
    case AddCall(c, nextId) => if nextId == 0 || nextId in s.store then None else Some(AddEvictingStep(s, c, nextId).post)
    case UpdateCall(c) => Some(UpdateStep(s, c).post)
    case DeleteCall(id) => Some(DeleteStep(s, id))
    case GetCustomerByIdCall(id) => Some(GetCustomerByIdStep(s, id).post)
  }

  function Run(s: State<Long>, calls: seq<Call>): Option<State<Long>>
    decreases |calls|
  {
    if calls == [] then Some(s)
    else match Apply(s, calls[0])
      case None => None
      case Some(t) => Run(t, calls[1..])
  }

  ghost predicate Invariant(s: State<Long>)
  {
    KeyedById(s.store) && 0 !in s.store && WellTyped(s.cache) && NoNullEntries(s.cache) && Coherent(s)
  }

  lemma ApplyPreservesInvariant(s: State<Long>, call: Call)
    requires Invariant(s) && Apply(s, call).Some?
    ensures Invariant(Apply(s, call).value)
  {
    match call
    case GetAllCall(rows) => GetAllPreservesCoherence(s, rows);
    case AddCall(c, nextId) => AddEvictingPreservesCoherence(s, c, nextId);
    case UpdateCall(c) => UpdatePreservesCoherence(s, c);
    case DeleteCall(id) => DeletePreservesCoherence(s, id);
    case GetCustomerByIdCall(id) => GetCustomerByIdReturnsStoreRecord(s, id);
  }

  /** Whatever calls are made, no by-id entry is ever stale and none holds null. */
  lemma {:induction false} RunPreservesInvariant(s: State<Long>, calls: seq<Call>)
    requires Invariant(s) && Run(s, calls).Some?
    ensures Invariant(Run(s, calls).value)
    decreases |calls|
  {
    if calls != [] {
      ApplyPreservesInvariant(s, calls[0]);
      RunPreservesInvariant(Apply(s, calls[0]).value, calls[1..]);
    }
  }
}
