/** `loadProducts`: serve the cached feed, or fetch it, normalize its shape,
    cache it and render it. The fetched body is an input; `None` stands for
    a rejected `fetch` or a body that is not JSON, both of which end in the
    catch block's error message. */
module Loader {
  import opened Wrappers
  import opened Js
  import opened Store
  import opened CatalogCache
  import opened Favorites
  import opened Render
  import Seqs

  /** `Array.isArray(data) ? data : data.products ? data.products : Object.values(data)`.
      `data.products` on `null` throws, which is `None`. */
  function Normalize(data: Json): (r: Option<Json>)
    ensures r.None? <==> data.JNull?
    ensures data.JArr? ==> r == Some(data)
    ensures !data.JArr? && TruthyOpt(Property(data, "products")) ==> r == Property(data, "products")
    ensures !data.JArr? && !data.JNull? && !TruthyOpt(Property(data, "products")) ==>
              r == Some(JArr(ObjectValues(data).value))
    ensures r.Some? ==> Truthy(r.value)
  {
    if data.JArr? then Some(data)
    else if data.JNull? then None
    else
      var products := Property(data, "products");
      if TruthyOpt(products) then products else Some(JArr(ObjectValues(data).value))
  }

  /** The object `{k1: r1, k2: r2, ...}`. */
  function Keyed(keys: seq<string>, records: seq<Json>): (r: Json)
    requires |keys| == |records|
    ensures r.JObj? && |r.fields| == |keys|
    ensures forall i :: 0 <= i < |keys| ==> r.fields[i] == (keys[i], records[i])
  {
    JObj(seq(|keys|, i requires 0 <= i < |keys| => (keys[i], records[i])))
  }

  /** The three accepted feed shapes, a bare list, `{products: list}` and a
      keyed object without a `products` key, give the same list. */
  lemma NormalizeShapesAgree(records: seq<Json>, keys: seq<string>)
    requires |keys| == |records|
    requires Seqs.NoDuplicates(keys)
    requires "products" !in keys
    ensures Normalize(JArr(records)) == Some(JArr(records))
    ensures Normalize(JObj([("products", JArr(records))])) == Some(JArr(records))
    ensures Normalize(Keyed(keys, records)) == Some(JArr(records))
  {
    var keyed := Keyed(keys, records);
    assert Property(keyed, "products").None? by {
      forall i | 0 <= i < |keyed.fields| ensures keyed.fields[i].0 != "products" {
        assert keyed.fields[i].0 == keys[i];
      }
    }
    assert ObjectValues(keyed).value == records;
  }

  /** What a load leaves behind: whether it fetched, the storage, and the
      render region. */
  datatype LoadOutcome = LoadOutcome(fetched: bool, items: map<string, StoredText>, surface: Surface)

  function Show(cards: Option<seq<RenderItem>>): (r: Surface)
  {
    match cards
    case Some(items) => Cards(items)
    case None => LoadError
  }

  /** `loadProducts` with the cache read at `readTime`, the fetched `body`,
      and the snapshot timestamped `writeTime`. */
  function Load(items: map<string, StoredText>, readTime: int, writeTime: int, body: Option<Json>): (r: LoadOutcome)
    // a cache hit performs no fetch and renders the cached list
    ensures var read := ReadCache(items, readTime);
            TruthyOpt(read.data) ==>
              r == LoadOutcome(false, read.items, Show(RenderList(read.data.value, GetFavorites(read.items))))
    // a miss fetches; a normalized body is cached before it is rendered
    ensures var read := ReadCache(items, readTime);
            !TruthyOpt(read.data) ==>
              r.fetched &&
              (body.Some? && Normalize(body.value).Some? ==>
                 var stored := WriteCache(read.items, Normalize(body.value).value, writeTime);
                 r.items == stored &&
                 r.surface == Show(RenderList(Normalize(body.value).value, GetFavorites(stored)))) &&
              (body.None? || Normalize(body.value).None? ==> r.items == read.items && r.surface == LoadError)
  {
    var read := ReadCache(items, readTime);
    if TruthyOpt(read.data) then
      LoadOutcome(false, read.items, Show(RenderList(read.data.value, GetFavorites(read.items))))
    else if body.None? then LoadOutcome(true, read.items, LoadError)
    else match Normalize(body.value)
      case None => LoadOutcome(true, read.items, LoadError)
      case Some(products) =>
        var stored := WriteCache(read.items, products, writeTime);
        LoadOutcome(true, stored, Show(RenderList(products, GetFavorites(stored))))
  }

  /** A load leaves the favorites key as it found it. */
  lemma LoadKeepsFavorites(items: map<string, StoredText>, readTime: int, writeTime: int, body: Option<Json>)
    ensures var after := Load(items, readTime, writeTime, body).items;
            (FavoritesStorageKey in after <==> FavoritesStorageKey in items) &&
            (FavoritesStorageKey in items ==> after[FavoritesStorageKey] == items[FavoritesStorageKey])
            && GetFavorites(after) == GetFavorites(items)
  {
    ReadCacheKeepsFavorites(items, readTime);
    assert FavoritesStorageKey != ProductsStorageKey;
  }

  /** After a load that fetched and cached the feed, a second load at most
      `CacheDuration` after the snapshot fetches nothing, changes nothing and
      shows the same cards. */
  lemma SecondLoadWithinTtlIsHit(items: map<string, StoredText>, t1: int, w1: int, body1: Json,
                                 t2: int, w2: int, body2: Option<Json>)
    requires !TruthyOpt(ReadCache(items, t1).data)
    requires Normalize(body1).Some?
    requires t2 - w1 <= CacheDuration
    ensures var first := Load(items, t1, w1, Some(body1));
            Load(first.items, t2, w2, body2) == LoadOutcome(false, first.items, first.surface)
  {
    var read := ReadCache(items, t1);
    var products := Normalize(body1).value;
    CacheRoundTrip(read.items, products, w1, t2);
  }

  /** A load more than `CacheDuration` after the snapshot fetches again. */
  lemma LoadAfterTtlFetches(items: map<string, StoredText>, t1: int, w1: int, body1: Json,
                            t2: int, w2: int, body2: Option<Json>)
    requires !TruthyOpt(ReadCache(items, t1).data)
    requires Normalize(body1).Some?
    requires t2 - w1 > CacheDuration
    ensures var first := Load(items, t1, w1, Some(body1));
            Load(first.items, t2, w2, body2).fetched
  {
    var read := ReadCache(items, t1);
    CacheExpires(read.items, Normalize(body1).value, w1, t2);
  }

  /** `renderProducts(products)`: reads the favorites and replaces the
      region's content; when building the cards throws, `ok` is false and the
      region is left as it was. */
  method RenderProducts(store: KeyValueStore, view: Container, products: Json) returns (ok: bool)
    modifies view
    ensures var cards := RenderList(products, GetFavorites(store.items));
            ok == cards.Some? &&
            view.content == (if ok then Cards(cards.value) else old(view.content))
  {
    var favorites := GetFavorites(store.items);
    var cards := RenderList(products, favorites);
    if cards.None? {
      return false;
    }
    view.content := Cards(cards.value);
    ok := true;
  }

  method LoadProducts(store: KeyValueStore, view: Container, readTime: int, writeTime: int, body: Option<Json>)
    returns (fetched: bool)
    modifies store, view
    ensures var outcome := Load(old(store.items), readTime, writeTime, body);
            fetched == outcome.fetched && store.items == outcome.items && view.content == outcome.surface
  {
    var products := GetCachedProducts(store, readTime);
    fetched := !TruthyOpt(products);
    var list: Json;
    if !fetched {
      list := products.value;
    } else {
      if body.None? {
        view.content := LoadError;
        return;
      }
      var normalized := Normalize(body.value);
      if normalized.None? {
        view.content := LoadError;
        return;
      }
      list := normalized.value;
      CacheProducts(store, list, writeTime);
    }
    var ok := RenderProducts(store, view, list);
    if !ok {
      view.content := LoadError;
    }
  }

  /** Toggling a card's id flips that card's heart on the next render, when
      the id occurs at most once among the favorites. */
  lemma ToggleThenRenderFlips(product: Json, favorites: seq<Json>)
    requires RenderItemOf(product, JArr(favorites)).Some?
    requires Seqs.Count(favorites, JStr(RenderItemOf(product, JArr(favorites)).value.id)) <= 1
    ensures var id := RenderItemOf(product, JArr(favorites)).value.id;
            var after := RenderItemOf(product, JArr(Toggled(favorites, id)));
            after.Some? && after.value.favorite == !RenderItemOf(product, JArr(favorites)).value.favorite
  {
    var id := RenderItemOf(product, JArr(favorites)).value.id;
    ButtonMatchesList(favorites, id);
  }
}
