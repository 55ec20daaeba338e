/** `getCachedProducts` and `cacheProducts`: the catalog feed kept in storage
    under `ProductsStorageKey` as `{data, timestamp}`, served while it is at
    most `CacheDuration` milliseconds old. */
module CatalogCache {
  import opened Wrappers
  import opened Js
  import opened Store

  /** 24 hours, in milliseconds. */
  const CacheDuration: int := 24 * 60 * 60 * 1000

  /** The entry `cacheProducts` writes, `{data: products, timestamp: now}`:
      reading its members back gives the products and the time. */
  function Entry(products: Json, timestamp: int): (r: Json)
    ensures r.JObj?
    ensures Property(r, "data") == Some(products)
    ensures Property(r, "timestamp") == Some(JNum(IntNumber(timestamp)))
    ensures TimestampValue(Property(r, "timestamp")) == Some(timestamp as real)
  {
    var fields := [("data", products), ("timestamp", JNum(IntNumber(timestamp)))];
    assert fields[0].0 != "timestamp";
    assert fields[1..] == [("timestamp", JNum(IntNumber(timestamp)))];
    assert Lookup(fields[1..], "timestamp") == Some(JNum(IntNumber(timestamp)));
    JObj(fields)
  }

  /** The numeric value `Date.now() - timestamp` subtracts; `None` is NaN
      (a missing timestamp), against which every comparison is false. */
  function TimestampValue(timestamp: Option<Json>): (r: Option<real>)
    ensures timestamp.None? ==> r.None?
    ensures timestamp == Some(JNull) ==> r == Some(0.0)
    ensures timestamp == Some(JStr("")) || timestamp == Some(JArr([])) ==> r == Some(0.0)
    ensures timestamp.Some? && timestamp.value.JBool? ==> r == Some(if timestamp.value.b then 1.0 else 0.0)
    ensures timestamp.Some? && timestamp.value.JNum? ==> r == Some(timestamp.value.n.value)
    ensures timestamp.Some? && timestamp.value.JObj? ==> r.None?
  {
    match timestamp
    case None => None
    case Some(JNull) => Some(0.0)
    case Some(JBool(b)) => Some(if b then 1.0 else 0.0)
    case Some(JNum(n)) => Some(n.value)
    case Some(JStr(s)) => if s == "" then Some(0.0) else None
    case Some(JArr(items)) => if items == [] then Some(0.0) else None
    case Some(JObj(_)) => None
  }

  /** `Date.now() - timestamp > CACHE_DURATION` for a parsed entry. */
  predicate Expired(entry: Json, now: int)
    // only an object with a timestamp member can expire (a missing one is NaN)
    ensures Expired(entry, now) ==> entry.JObj? && Property(entry, "timestamp").Some?
  {
    var t := TimestampValue(Property(entry, "timestamp"));
    t.Some? && now as real - t.value > CacheDuration as real
  }

  /** What a read returns (`None` where `getCachedProducts` returns `null` or
      `undefined`; a stored `data: null` comes back as `Some(JNull)`) and the storage after it. */
  datatype CacheRead = CacheRead(data: Option<Json>, items: map<string, StoredText>)

  /** The effect of `getCachedProducts` at time `now` on storage `items`:
      a missing or unparseable entry, or one that is `null` (destructuring
      throws), reads as absent and leaves storage alone; an expired entry reads
      as absent and is removed; any other entry yields its `data` member. */
  function ReadCache(items: map<string, StoredText>, now: int): (r: CacheRead)
    ensures (ProductsStorageKey !in items || items[ProductsStorageKey].Malformed? ||
             items[ProductsStorageKey] == Serialized(JNull)) ==>
              r == CacheRead(None, items)
    ensures (ProductsStorageKey in items && items[ProductsStorageKey].Serialized? &&
             !items[ProductsStorageKey].value.JNull?) ==>
              var entry := items[ProductsStorageKey].value;
              (r.items != items <==> Expired(entry, now)) &&
              (Expired(entry, now) ==> r.data.None?) &&
              (!Expired(entry, now) ==> r.data == Property(entry, "data"))
    ensures r.items == items || (ProductsStorageKey in items && r.items == items - {ProductsStorageKey} && r.data.None?)
    ensures r.data.Some? ==>
              ProductsStorageKey in items && items[ProductsStorageKey].Serialized? &&
              r.data == Property(items[ProductsStorageKey].value, "data")
  {
    if ProductsStorageKey !in items then CacheRead(None, items)
    else match items[ProductsStorageKey]
      case Malformed(_) => CacheRead(None, items)
      case Serialized(entry) =>
        if entry.JNull? then CacheRead(None, items)
        else if Expired(entry, now) then CacheRead(None, items - {ProductsStorageKey})
        else CacheRead(Property(entry, "data"), items)
  }

  /** The storage after `cacheProducts(products)` at time `now`. */
  function WriteCache(items: map<string, StoredText>, products: Json, now: int): (r: map<string, StoredText>)
    ensures ProductsStorageKey in r && r[ProductsStorageKey] == Serialized(Entry(products, now))
    ensures forall k :: k != ProductsStorageKey ==> (k in r <==> k in items)
    ensures forall k :: k != ProductsStorageKey && k in items ==> r[k] == items[k]
  {
    items[ProductsStorageKey := Serialized(Entry(products, now))]
  }

  method GetCachedProducts(store: KeyValueStore, now: int) returns (data: Option<Json>)
    modifies store
    ensures data == ReadCache(old(store.items), now).data
    ensures store.items == ReadCache(old(store.items), now).items
  {
    var cached := store.GetItem(ProductsStorageKey);
    if cached.None? {
      return None;
    }
    match cached.value
    case Malformed(_) =>
      data := None;
    case Serialized(entry) =>
      if entry.JNull? {
        data := None;
      } else if Expired(entry, now) {
        store.RemoveItem(ProductsStorageKey);
        data := None;
      } else {
        data := Property(entry, "data");
      }
  }

  method CacheProducts(store: KeyValueStore, products: Json, now: int)
    modifies store
    ensures store.items == WriteCache(old(store.items), products, now)
  {
    store.SetItem(ProductsStorageKey, Serialized(Entry(products, now)));
  }

  /** A snapshot written at `written` is served unchanged at any `now` at most
      `CacheDuration` later, including exactly `CacheDuration` later, and the
      read leaves storage as it was. */
  lemma CacheRoundTrip(items: map<string, StoredText>, products: Json, written: int, now: int)
    requires now - written <= CacheDuration
    ensures ReadCache(WriteCache(items, products, written), now) ==
            CacheRead(Some(products), WriteCache(items, products, written))
  {
    var entry := Entry(products, written);
    assert !Expired(entry, now);
  }

  /** An entry that has expired stays expired at every later time. */
  lemma ExpiredLater(entry: Json, now: int, later: int)
    requires Expired(entry, now) && now <= later
    ensures Expired(entry, later)
  {
  }

  /** A snapshot read more than `CacheDuration` after it was written is not
      served, and the read deletes it. */
  lemma CacheExpires(items: map<string, StoredText>, products: Json, written: int, now: int)
    requires now - written > CacheDuration
    ensures ReadCache(WriteCache(items, products, written), now) ==
            CacheRead(None, WriteCache(items, products, written) - {ProductsStorageKey})
  {
    var entry := Entry(products, written);
    assert Expired(entry, now);
  }

  /** Reading the cache never touches the favorites key. */
  lemma ReadCacheKeepsFavorites(items: map<string, StoredText>, now: int)
    ensures var after := ReadCache(items, now).items;
            (FavoritesStorageKey in after <==> FavoritesStorageKey in items) &&
            (FavoritesStorageKey in items ==> after[FavoritesStorageKey] == items[FavoritesStorageKey])
  {
    assert FavoritesStorageKey != ProductsStorageKey;
  }
}
