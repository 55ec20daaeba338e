/** The browser's `localStorage`, as the widget uses it: a map from keys to
    stored strings. A stored string is represented by what `JSON.parse` makes
    of it: the JSON value it denotes, or the raw text when it does not parse. */
module Store {
  import opened Wrappers
  import opened Js

  datatype StoredText = Serialized(value: Json) | Malformed(raw: string)

  /** The two keys the widget owns. */
  const ProductsStorageKey: string := "ebebek-products-data"
  const FavoritesStorageKey: string := "ebebek-favorites"

  class KeyValueStore {
    var items: map<string, StoredText>

    constructor (initial: map<string, StoredText>)
      ensures items == initial
    {
      items := initial;
    }

    /** `getItem`: the stored text, or `None` (`null`) for a missing key. */
    function GetItem(key: string): (r: Option<StoredText>)
      reads this
      ensures r.Some? <==> key in items
      ensures r.Some? ==> r.value == items[key]
    {
      if key in items then Some(items[key]) else None
    }

    /** `setItem`: overwrites one key. */
    method SetItem(key: string, text: StoredText)
      modifies this
      ensures items == old(items)[key := text]
    {
      items := items[key := text];
    }

    /** `removeItem`: deletes one key, if present. */
    method RemoveItem(key: string)
      modifies this
      ensures items == old(items) - {key}
    {
      items := items - {key};
    }
  }
}
