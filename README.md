# Ebebek product carousel: cache, favorites and card derivation

This project models the stateful core of the ebebek homepage product
carousel (`Nurhayat_Sezen.js`) and proves what it promises:

- **Formatter**: `formatPrice` over a price's text, and `calculateDiscount`
  / `Math.round` over real numbers.
- **Store**: `localStorage` as a class holding a `map` from keys to stored
  text. A stored string is represented by what `JSON.parse` makes of it:
  a `Json` value, or `Malformed` when it does not parse.
- **CatalogCache**: `getCachedProducts` / `cacheProducts` over the
  `ebebek-products-data` key with the 24-hour `CACHE_DURATION`. The clock is
  an `int` parameter.
- **Favorites**: `getFavorites` and `toggleFavorite` over the
  `ebebek-favorites` key. The favorite button is a class with an `active`
  field.
- **Render**: the per-card derivation and 15-card truncation of
  `renderProducts`. Each card is a `RenderItem` value rather than HTML.
- **Loader**: the response-shape normalization and the cache-or-fetch
  decision of `loadProducts`. The fetched body is an input.

JavaScript values are the `Js.Json` datatype. `Js.Number` pairs a number's
value with its `toString` text. Where the JavaScript would throw, the
model returns `None`. The error message that `loadProducts`' catch block
shows is the `LoadError` state of the render region.

Edge behaviour of the code that the model keeps:
- `calculateDiscount` can return 0 or 100 for `0 <= current < original`.
  A price 0.001% below the original rounds to 0, and a current price of 0
  gives 100.
- A negative original price above the current price gives a negative
  percentage.
- An entry exactly `CACHE_DURATION` old is still served, because the test is
  `now - timestamp > CACHE_DURATION`.
- `toggleFavorite` returns nothing. The new state is visible on the button.
- A non-2xx response is parsed like any other, since `response.ok` is never
  tested.
- The display cap is the literal 15, and prices are always formatted by
  `formatPrice`.

## Model

| member | source | states |
|---|---|---|
| Seqs.IndexOf | Nurhayat_Sezen.js:100 | `indexOf` gives -1 exactly when the value is absent, and otherwise a position holding it with no earlier occurrence |
| Seqs.RemoveAt | Nurhayat_Sezen.js:103 | `splice(i, 1)` keeps the elements before `i`, shifts those after it down by one, and shortens the list by one |
| Seqs.IsSubstring | Nurhayat_Sezen.js:612-616 | `includes` on a favorites string: a contained text is never longer than the string, and the empty text is contained in every string |
| Seqs.IsSubstringAt | Nurhayat_Sezen.js:612-616 | the string `includes` a text exactly when the text occurs at some position of the string |
| Store.KeyValueStore.GetItem | Nurhayat_Sezen.js:59 | `getItem` gives the stored text exactly when the key is present, and `null` otherwise |
| Store.KeyValueStore.SetItem | Nurhayat_Sezen.js:81 | `setItem` overwrites the one key and leaves every other key as it was |
| Store.KeyValueStore.RemoveItem | Nurhayat_Sezen.js:64 | `removeItem` deletes the one key and leaves every other key as it was |
| Js.Truthy | Nurhayat_Sezen.js:60 | a JSON value is falsy exactly when it is `null`, `false`, `0` or `""` |
| Js.TruthyOpt | Nurhayat_Sezen.js:623 | an `undefined` property read is falsy; a present value is as truthy as the value |
| Js.Lookup | Nurhayat_Sezen.js:62 | a member read is `undefined` exactly when no member has the key; otherwise it is the value of the first member with that key |
| Js.Property | Nurhayat_Sezen.js:702 | only an object has the properties the widget reads; any other value gives `undefined` |
| Js.ObjectValues | Nurhayat_Sezen.js:704 | `Object.values` throws exactly on `null`; an object gives its member values in order, and a string gives its characters as one-character strings |
| Js.ToText | Nurhayat_Sezen.js:612 | `toString` gives a string itself and a number its text; it gives "null", "true" and "false"; `[]` and `[null]` give "", and an object gives "[object Object]" |
| Formatter.WholePart | Nurhayat_Sezen.js:37 | the first piece of `split(".")` contains no dot; it is the whole text when there is no dot, and otherwise it is followed by the first dot |
| Formatter.DecimalPart | Nurhayat_Sezen.js:37 | the second piece of `split(".")` is absent exactly when the text has no dot; otherwise it contains no dot and runs from just after the first dot to the next dot or to the end of the text |
| Formatter.FormatPrice | Nurhayat_Sezen.js:36-42 | a text without "." is unchanged; otherwise the result is the text before the first dot, then `<span class="decimal">,`, the digits up to the next dot, and `</span>`; an empty fraction gives the whole part alone |
| Formatter.FormatPriceOfDecimal | Nurhayat_Sezen.js:36-42 | for `whole.fraction` with one dot and a non-empty fraction, the dot becomes the comma inside the decimal span and both halves are kept |
| Formatter.FormatPriceTrailingDot | Nurhayat_Sezen.js:38-41 | a text ending in a bare dot comes out without the dot (`if (decimal)` treats "" as absent) |
| Formatter.Round | Nurhayat_Sezen.js:49 | `Math.round` returns the integer within half of x, with halves rounded up |
| Formatter.DiscountPercent | Nurhayat_Sezen.js:49 | the result is the integer nearest to `(o - c) / o * 100`, with halves rounded up |
| Formatter.CalculateDiscount | Nurhayat_Sezen.js:47-52 | the result is null exactly when the original is absent, 0 or not above the current price; otherwise it is the rounded `100*(o-c)/o` |
| Formatter.DiscountInRange | Nurhayat_Sezen.js:47-52 | for `0 <= c < o` there is a discount and it lies in [0, 100] |
| Formatter.DiscountExample | Nurhayat_Sezen.js:47-52 | (100, 75) gives 25; equal, inverted, zero-original and absent-original inputs give null |
| CatalogCache.Entry | Nurhayat_Sezen.js:77-80 | the entry is an object whose `data` member reads back as the products and whose `timestamp` member reads back as the time |
| CatalogCache.TimestampValue | Nurhayat_Sezen.js:63 | the numeric conversion of the timestamp: a missing one is NaN; `null`, `""` and `[]` give 0; a boolean gives 0 or 1; a number gives its value; an object is NaN |
| CatalogCache.Expired | Nurhayat_Sezen.js:63 | only an object with a `timestamp` member can be expired |
| CatalogCache.ExpiredLater | Nurhayat_Sezen.js:63 | an entry that is expired at some time is expired at every later time |
| CatalogCache.ReadCache | Nurhayat_Sezen.js:57-71 | a missing, unparseable or `null` entry reads as null and leaves storage unchanged; a parsed non-null entry is removed exactly when `now - timestamp > CACHE_DURATION`, and then reads as null; otherwise its `data` member is returned; a read changes at most the products key |
| CatalogCache.WriteCache | Nurhayat_Sezen.js:76-82 | writing the cache sets the products key to `{data: products, timestamp: now}` and leaves every other key as it was |
| CatalogCache.GetCachedProducts | Nurhayat_Sezen.js:57-71 | the method returns the read's value and leaves storage in the read's state |
| CatalogCache.CacheProducts | Nurhayat_Sezen.js:76-82 | the method overwrites the products key with `{data: products, timestamp: now}` |
| CatalogCache.CacheRoundTrip | Nurhayat_Sezen.js:63 | data cached at time t is served unchanged at any t' with t' - t <= CACHE_DURATION, including exactly the TTL, and the read changes nothing |
| CatalogCache.CacheExpires | Nurhayat_Sezen.js:63-66 | data read more than CACHE_DURATION after caching gives null, and the read deletes just the products key |
| CatalogCache.ReadCacheKeepsFavorites | Nurhayat_Sezen.js:64 | a cache read never changes the favorites key |
| Favorites.GetFavorites | Nurhayat_Sezen.js:87-93 | a missing key, corrupt JSON or a falsy parsed value gives `[]`; otherwise the parsed value; the result is always truthy |
| Favorites.Toggled | Nurhayat_Sezen.js:99-108 | an absent id is pushed at the end; otherwise the first occurrence of the id is spliced out, and everything before and after it is kept |
| Favorites.ToggleFavorite | Nurhayat_Sezen.js:98-111 | with an array stored, the toggled list is written back and the button is active iff the id was absent; with a truthy non-array, nothing changes |
| Favorites.ToggledMultiset | Nurhayat_Sezen.js:100-108 | a toggle removes one copy of the id when present, else adds one; every other value keeps its count |
| Favorites.ToggleFlipsMembership | Nurhayat_Sezen.js:100-108 | when the id occurs at most once, it is in the new list iff it was not in the old one; every other id keeps its membership |
| Favorites.ToggleWithDuplicateKeepsId | Nurhayat_Sezen.js:100-103 | with two or more copies of the id, only the first is spliced out and the id stays a favorite |
| Favorites.ToggleKeepsNoDuplicates | Nurhayat_Sezen.js:100-108 | a duplicate-free list stays duplicate-free |
| Favorites.ToggleTwiceRestoresAbsent | Nurhayat_Sezen.js:100-108 | toggling an absent id twice restores the exact list |
| Favorites.ToggleTwiceRestoresMembership | Nurhayat_Sezen.js:100-108 | toggling an id that occurs at most once twice gives a permutation of the original list |
| Favorites.ToggleOnDuplicateFreeList | Nurhayat_Sezen.js:100-111 | on a duplicate-free list every toggle flips the id's membership, keeps every other membership and writes back a duplicate-free list |
| Favorites.ButtonMatchesList | Nurhayat_Sezen.js:102-110 | when the id occurs at most once, the button's new state (the id was absent) equals the id's membership in the list written back |
| Render.Includes | Nurhayat_Sezen.js:612 | `favorites.includes` is defined exactly on arrays and strings; on an array it is element membership |
| Render.Money | Nurhayat_Sezen.js:658-668 | an amount is `formatPrice`'s text followed by " TL"; a text with no dot is shown as it is, followed by " TL" |
| Render.RenderItemOf | Nurhayat_Sezen.js:596-684 | a card exists exactly when the record is an object with a non-null id and a numeric price, any truthy original price is numeric, and favorites is an array or string; the heart is active iff `id.toString()` is in the favorites array (or is a substring of a favorites string), and the label is "Favorilerden çıkar" when active and "Favorilere ekle" otherwise; the discount block appears iff `original_price` is truthy and above `price`; the installment badge appears iff `price > 500` |
| Render.RenderAll | Nurhayat_Sezen.js:596-685 | `.map` gives one card per record, in order, and fails when any record fails |
| Render.RenderList | Nurhayat_Sezen.js:594-595 | a non-array fails; an array gives exactly `min(n, 15)` cards, the first records' cards in feed order |
| Render.RenderIgnoresTail | Nurhayat_Sezen.js:595 | records after the 15th do not affect the render |
| Render.InlineDiscountAgrees | Nurhayat_Sezen.js:597-605 | the inline percentage equals `calculateDiscount`, with 0 where that gives null |
| Loader.Normalize | Nurhayat_Sezen.js:700-704 | an array maps to itself, a truthy `products` member to that member, and any other non-null value to `Object.values`; null throws; the result is always truthy |
| Loader.NormalizeShapesAgree | Nurhayat_Sezen.js:700-704 | `[r...]`, `{products: [r...]}` and `{k1: r1, ...}` with distinct keys and no `products` key all give `[r...]` |
| Loader.Load | Nurhayat_Sezen.js:691-724 | a cache hit renders the cached list without fetching; a miss fetches, and a normalized body is cached before it is rendered; a failed fetch or null body shows the error message |
| Loader.LoadKeepsFavorites | Nurhayat_Sezen.js:691-712 | a load leaves the favorites key unchanged |
| Loader.SecondLoadWithinTtlIsHit | Nurhayat_Sezen.js:693-712 | after a load that fetched, a second load within CACHE_DURATION of the snapshot fetches nothing, changes no storage and shows the same cards |
| Loader.LoadAfterTtlFetches | Nurhayat_Sezen.js:693-696 | a load more than CACHE_DURATION after the snapshot fetches again |
| Loader.RenderProducts | Nurhayat_Sezen.js:588-686 | the region gets the cards for the current favorites, or is left as it was when building them throws |
| Loader.LoadProducts | Nurhayat_Sezen.js:691-724 | the method gives the fetch decision, storage and region content that `Load` describes |
| Loader.ToggleThenRenderFlips | Nurhayat_Sezen.js:98-111 | when a card's id occurs at most once among the favorites, toggling it flips that card's heart on the next render |

## Left out

- The page-path gate, removal of earlier carousel and style nodes, the CSS
  (`buildCSS`) and the markup placement (`buildHTML`). These are page plumbing
  and styling.
- `addNavigation`'s `scrollBy(±300)`. It is a view-only scroll with no state.
- Click delegation (`closest`, `preventDefault`, `stopPropagation`) and the
  add-to-cart `console.log` stub. `ToggleFavorite` takes the id and button
  that the handler passes.
- The heart colour strings. Only the button's `active` state is modelled.
- The random rating count, which is nondeterministic and cosmetic.
- `fetch` and `response.json()` and their asynchrony. The body is a
  parameter, and `None` stands for a rejected fetch or a non-JSON body.
- Console logging, and the text of the error message. The region's error
  state is `LoadError`.
- JavaScript's number-to-text conversion and IEEE arithmetic. A number carries
  its text, and discounts use exact real arithmetic.
- The HTML text of a card. A card is a `RenderItem`, and only the price text
  is built as the source builds it.
- How `JSON.parse` orders object members. A `Json` object lists its members in
  JavaScript enumeration order, taken as given.
- Render.RenderItemOf: a `price` that is a string, boolean, array or object,
  or a truthy `original_price` that is not a number, gives no card. Because
  `RenderAll` fails when any card fails, one such record among the first 15
  makes `RenderList` return `None`. `Load` then shows `LoadError` for the whole
  carousel, where JavaScript would coerce the value and render every card.
- The render region is assumed present. The early `return` of
  `renderProducts` when the container is missing, and the catch block's
  `if (container)`, are not modelled: a `Container` always exists.
- CatalogCache.TimestampValue, CatalogCache.ReadCache: a `timestamp` that is
  `null`, a boolean, a number, `""` or `[]` is converted as JavaScript
  converts it (`""` and `[]` give 0). Any other string, array or object is treated as NaN, so the entry is served
  and never expires. JavaScript converts a numeric or whitespace-only string
  and a one-element array to a number, and so can expire and remove such an
  entry where the model keeps serving it.
- Js.ObjectValues: strings are sequences of Unicode code points, where
  JavaScript strings are sequences of UTF-16 code units. A character outside
  the Basic Multilingual Plane (an emoji, say) is one element here, so
  `Object.values` of such a string, and `Loader.Normalize` of a bare-string
  body, give one entry where JavaScript gives two surrogate halves. A JSON
  string with a lone-surrogate escape such as `"\uD800"` has no `JStr`
  counterpart at all.
- Storage failures. `getItem`, `setItem` and `removeItem` are assumed to
  succeed. In the source, a `setItem` that throws (quota exceeded, storage
  disabled) has two effects. In `toggleFavorite` it leaves the button's class
  flipped while the stored list is unchanged. In `loadProducts`, a failing
  `cacheProducts` skips `renderProducts` and shows the error message.
  `ToggleFavorite` and `Load` do not capture either outcome.
- Favorites.ToggleFavorite: the id passed in is the button's `dataset.id`,
  the HTML-parsed text of `data-id="${product.id}"`. It is taken to equal the
  id's text `ToText(id)`. The two differ for an id that contains `"` or an
  entity such as `&amp;`, and `Loader.ToggleThenRenderFlips` relies on them
  being equal.
- Favorites.ToggleFavorite: a rendered button without a `.heart-icon` child
  would throw after the class change. The model assumes the child is there,
  as it always is in rendered cards.
