/**
 * The cache-aside policy shared by both customer services.
 *
 * A durable store maps customer ids to records; a Redis cache namespace
 * ("customers") maps keys to cached values. A key is either a customer id
 * (point lookups) or the single no-argument key that getAll uses. The
 * operations that both service variants implement identically
 * (getCustomerById, getAll, delete) are specified here as pure steps on
 * the pair (store, cache).
 */
module CacheAside {

  datatype Option<+T> = None | Some(value: T)

  /** A customer: an identity and six replaceable attributes. */
  datatype Customer<Id(==,!new)> = Customer(
    id: Id,
    name: string,
    contactName: string,
    address: string,
    city: string,
    postalCode: string,
    country: string)

  /** A key of the "customers" cache: a customer id, or the key of the whole collection. */
  datatype Key<Id(==,!new)> = ById(id: Id) | AllKey

  /** A cached value: one record, a cached null, or the list getAll returned. */
  datatype CacheVal<Id(==,!new)> = Record(customer: Customer<Id>) | Null | Rows(rows: seq<Customer<Id>>)

  type Store<Id(==,!new)> = map<Id, Customer<Id>>
  type Cache<Id(==,!new)> = map<Key<Id>, CacheVal<Id>>

  /** The whole observable state: the durable store and the cache namespace. */
  datatype State<Id(==,!new)> = State(store: Store<Id>, cache: Cache<Id>)

  /** What one operation returns, and the state it leaves behind. */
  datatype Step<R, Id(==,!new)> = Step(result: R, post: State<Id>)

  /** The repository's findById(id).orElse(null). */
  function FindById<Id(==,!new)>(store: Store<Id>, id: Id): Option<Customer<Id>>
  {
    if id in store then Some(store[id]) else None
  }

  /** The value the cache holds for a method result that may be null. */
  function Encode<Id(==,!new)>(r: Option<Customer<Id>>): CacheVal<Id>
  {
    match r
    case None => Null
    case Some(c) => Record(c)
  }

  /** The result a cache hit under a by-id key hands back (a cached null is a null result). */
  function AsCustomer<Id(==,!new)>(v: CacheVal<Id>): Option<Customer<Id>>
  {
    match v
    case Record(c) => Some(c)
    case Null => None
    case Rows(_) => None  // never stored under a by-id key: see WellTyped
  }

  /** The result a cache hit under the collection key hands back. */
  function AsRows<Id(==,!new)>(v: CacheVal<Id>): seq<Customer<Id>>
  {
    match v
    case Rows(rows) => rows
    case _ => []  // never stored under the collection key: see WellTyped
  }

  /** Every record is stored under its own id. */
  ghost predicate KeyedById<Id(!new)>(store: Store<Id>)
  {
    forall id :: id in store ==> store[id].id == id
  }

  /** By-id keys hold records or nulls; the collection key holds a list. */
  ghost predicate WellTyped<Id(!new)>(cache: Cache<Id>)
  {
    && (forall id :: ById(id) in cache ==> !cache[ById(id)].Rows?)
    && (AllKey in cache ==> cache[AllKey].Rows?)
  }

  /**
   * Every by-id cache entry agrees with the store: a cached record is the
   * stored record, and a cached null means the id is not stored.
   */
  ghost predicate Coherent<Id(!new)>(s: State<Id>)
  {
    forall id :: ById(id) in s.cache ==> s.cache[ById(id)] == Encode(FindById(s.store, id))
  }

  /** The record update() saves: the stored identity with the incoming six attributes. */
  function Merged<Id(==,!new)>(stored: Customer<Id>, incoming: Customer<Id>): Customer<Id>
  {
    Customer(stored.id, incoming.name, incoming.contactName, incoming.address,
             incoming.city, incoming.postalCode, incoming.country)
  }

  /** The six setter calls update() makes on the fetched record, one at a time. */
  method CopyAttributes<Id(==,!new)>(rep: Customer<Id>, customer: Customer<Id>) returns (r: Customer<Id>)
    ensures r == Merged(rep, customer)
  {
    r := rep;
    r := r.(name := customer.name);
    r := r.(contactName := customer.contactName);
    r := r.(address := customer.address);
    r := r.(city := customer.city);
    r := r.(postalCode := customer.postalCode);
    r := r.(country := customer.country);
  }

  // ---------------------------------------------------------------------
  // The repository's findAll(): a list holding every stored record once.
  // Its order is the store's own and is not modelled.
  // ---------------------------------------------------------------------

  ghost predicate IsListing<Id(!new)>(rows: seq<Customer<Id>>, store: Store<Id>)
  {
    && (forall i :: 0 <= i < |rows| ==> rows[i].id in store && store[rows[i].id] == rows[i])
    && (forall i, j :: 0 <= i < j < |rows| ==> rows[i].id != rows[j].id)
    && (forall id :: id in store ==> exists i :: 0 <= i < |rows| && rows[i].id == id)
  }

  ghost function Ids<Id(!new)>(rows: seq<Customer<Id>>): set<Id>
  {
    if rows == [] then {} else {rows[0].id} + Ids(rows[1..])
  }

  lemma {:induction false} IdsMembership<Id(!new)>(rows: seq<Customer<Id>>, id: Id)
    ensures id in Ids(rows) <==> exists i :: 0 <= i < |rows| && rows[i].id == id
  {
    if rows != [] {
      IdsMembership(rows[1..], id);
      if id != rows[0].id && id in Ids(rows[1..]) {
        var i :| 0 <= i < |rows[1..]| && rows[1..][i].id == id;
        assert rows[i + 1].id == id;
      }
      if exists i :: 0 <= i < |rows| && rows[i].id == id {
        var i :| 0 <= i < |rows| && rows[i].id == id;
        if i > 0 {
          assert rows[1..][i - 1].id == id;
        }
      }
    }
  }

  lemma {:induction false} IdsCardinality<Id(!new)>(rows: seq<Customer<Id>>)
    requires forall i, j :: 0 <= i < j < |rows| ==> rows[i].id != rows[j].id
    ensures |Ids(rows)| == |rows|
  {
    if rows != [] {
      var rest := rows[1..];
      assert forall i, j :: 0 <= i < j < |rest| ==> rest[i].id != rest[j].id by {
        forall i, j | 0 <= i < j < |rest| ensures rest[i].id != rest[j].id {
          assert rest[i] == rows[i + 1] && rest[j] == rows[j + 1];
        }
      }
      IdsCardinality(rest);
      forall i | 0 <= i < |rest| ensures rest[i].id != rows[0].id {
        assert rest[i] == rows[i + 1];
      }
      IdsMembership(rest, rows[0].id);
    }
  }

  /** A listing holds each stored record exactly once, and nothing else. */
  lemma ListingIsTheStore<Id(!new)>(rows: seq<Customer<Id>>, store: Store<Id>)
    requires IsListing(rows, store)
    ensures |rows| == |store|
    ensures forall c: Customer<Id> :: c in rows <==> c.id in store && store[c.id] == c
  {
    IdsCardinality(rows);
    forall id
      ensures id in Ids(rows) <==> id in store
    {
      IdsMembership(rows, id);
    }
    assert Ids(rows) == store.Keys;
    forall c: Customer<Id> | c.id in store && store[c.id] == c
      ensures c in rows
    {
      var i :| 0 <= i < |rows| && rows[i].id == c.id;
      assert rows[i] == c;
    }
  }

  // ---------------------------------------------------------------------
  // The steps both variants share.
  // ---------------------------------------------------------------------

  /**
   * getCustomerById(id) under @Cacheable(key = "#id", unless = "#result == null"):
   * a hit returns the cached value without calling the repository; a miss
   * returns findById(id).orElse(null) and caches it only when it is not null.
   */
  function GetCustomerByIdStep<Id(==,!new)>(s: State<Id>, id: Id): Step<Option<Customer<Id>>, Id>
  {
    if ById(id) in s.cache then Step(AsCustomer(s.cache[ById(id)]), s)
    else
      var r := FindById(s.store, id);
      if r.Some? then Step(r, s.(cache := s.cache[ById(id) := Record(r.value)]))
      else Step(r, s)
  }

  /**
   * getAll() under @Cacheable with the default key: a hit returns the cached
   * list; a miss returns what findAll() returned (rows) and caches it.
   */
  function GetAllStep<Id(==,!new)>(s: State<Id>, rows: seq<Customer<Id>>): Step<seq<Customer<Id>>, Id>
  {
    if AllKey in s.cache then Step(AsRows(s.cache[AllKey]), s)
    else Step(rows, s.(cache := s.cache[AllKey := Rows(rows)]))
  }

  /**
   * delete(id): deleteById(id) when existsById(id), then
   * @CacheEvict(key = "#id", condition = "#id!=null") on a non-null id.
   */
  function DeleteStep<Id(==,!new)>(s: State<Id>, id: Id): State<Id>
  {
    var store := if id in s.store then s.store - {id} else s.store;
    State(store, s.cache - {ById(id)})
  }

  // ---------------------------------------------------------------------
  // Properties of the shared steps.
  // ---------------------------------------------------------------------

  /**
   * While the cache is coherent, getCustomerById returns exactly what the
   * store holds, hit or miss, never touches the store, and keeps the cache
   * coherent.
   */
  lemma GetCustomerByIdReturnsStoreRecord<Id(!new)>(s: State<Id>, id: Id)
    requires Coherent(s)
    ensures GetCustomerByIdStep(s, id).result == FindById(s.store, id)
    ensures GetCustomerByIdStep(s, id).post.store == s.store
    ensures Coherent(GetCustomerByIdStep(s, id).post)
  {
  }

  /**
   * A not-found lookup is never cached: on a miss for an absent id nothing
   * changes, and the only entry a call can create is the found record.
   */
  lemma GetCustomerByIdNeverCachesNotFound<Id(!new)>(s: State<Id>, id: Id)
    ensures var p := GetCustomerByIdStep(s, id).post;
      && p.store == s.store
      && (ById(id) !in s.cache && id !in s.store ==> p == s)
      && (ById(id) !in s.cache && id in s.store ==> p.cache == s.cache[ById(id) := Record(s.store[id])])
      && (ById(id) in s.cache ==> p == s)
  {
  }

  /**
   * Calling getCustomerById twice gives the same result both times when the
   * cache is coherent; when the first call found a record, the second is a
   * cache hit that changes nothing.
   */
  lemma GetCustomerByIdTwice<Id(!new)>(s: State<Id>, id: Id)
    requires Coherent(s)
    ensures var first := GetCustomerByIdStep(s, id);
      var second := GetCustomerByIdStep(first.post, id);
      && second.result == first.result
      && (first.result.Some? ==> ById(id) in first.post.cache && second.post == first.post)
  {
  }

  /**
   * On a miss getAll returns the repository's listing, which holds every
   * stored record exactly once, and caches it under the collection key;
   * on a hit it returns the cached list and changes nothing.
   */
  lemma GetAllReadsThrough<Id(!new)>(s: State<Id>, rows: seq<Customer<Id>>)
    requires IsListing(rows, s.store)
    ensures var step := GetAllStep(s, rows);
      && step.post.store == s.store
      && (AllKey in s.cache ==> step == Step(AsRows(s.cache[AllKey]), s))
      && (AllKey !in s.cache ==>
            && |step.result| == |s.store|
            && (forall c: Customer<Id> :: c in step.result <==> c.id in s.store && s.store[c.id] == c)
            && step.post.cache == s.cache[AllKey := Rows(rows)])
  {
    ListingIsTheStore(rows, s.store);
  }

  /**
   * A second getAll returns the same list as the first, whatever the store
   * would list by then: the collection entry is only ever read back.
   */
  lemma GetAllTwice<Id(!new)>(s: State<Id>, rows: seq<Customer<Id>>, later: seq<Customer<Id>>)
    ensures var first := GetAllStep(s, rows);
      GetAllStep(first.post, later) == Step(first.result, first.post)
  {
  }

  /** getAll only touches the collection key, so it keeps every invariant of the by-id entries. */
  lemma GetAllPreservesCoherence<Id(!new)>(s: State<Id>, rows: seq<Customer<Id>>)
    requires Coherent(s) && WellTyped(s.cache)
    ensures Coherent(GetAllStep(s, rows).post) && WellTyped(GetAllStep(s, rows).post.cache)
  {
  }

  /**
   * delete(id) removes the record if present, leaves the store unchanged
   * otherwise, always evicts the id's entry, and keeps everything else.
   */
  lemma DeleteRemovesRecordAndEntry<Id(!new)>(s: State<Id>, id: Id)
    ensures var p := DeleteStep(s, id);
      && id !in p.store && ById(id) !in p.cache
      && (id !in s.store ==> p.store == s.store)
      && (forall other :: other != id ==> FindById(p.store, other) == FindById(s.store, other))
      && (forall k :: k != ById(id) ==> (k in p.cache <==> k in s.cache))
      && (forall k :: k != ById(id) && k in s.cache ==> p.cache[k] == s.cache[k])
  {
  }

  /** Deleting twice is the same as deleting once. */
  lemma DeleteIsIdempotent<Id(!new)>(s: State<Id>, id: Id)
    ensures DeleteStep(DeleteStep(s, id), id) == DeleteStep(s, id)
  {
  }

  /** After delete(id), getCustomerById(id) misses, finds nothing, and caches nothing. */
  lemma GetAfterDeleteFindsNothing<Id(!new)>(s: State<Id>, id: Id)
    ensures var d := DeleteStep(s, id);
      GetCustomerByIdStep(d, id) == Step(None, d)
  {
  }

  /** delete keeps the store keyed by id, the cache well typed and the cache coherent. */
  lemma DeletePreservesCoherence<Id(!new)>(s: State<Id>, id: Id)
    requires KeyedById(s.store) && WellTyped(s.cache) && Coherent(s)
    ensures var p := DeleteStep(s, id);
      KeyedById(p.store) && WellTyped(p.cache) && Coherent(p)
  {
  }
}
