/** The per-card derivation of `renderProducts`: the first 15 feed records,
    each joined with its favorite state, discount, installment badge and
    formatted prices. A card is a `RenderItem` value; the markup around it
    is not modelled except for the price text. */
module Render {
  import opened Wrappers
  import opened Js
  import opened Formatter
  import Seqs

  /** Cards shown at most. */
  const MaxDisplayed: nat := 15

  /** Prices strictly above this show the installment badge. */
  const InstallmentThreshold: real := 500.0

  const RemoveLabel: string := "Favorilerden çıkar"
  const AddLabel: string := "Favorilere ekle"

  /** The price block: the current price alone, or the original price, the
      "Sepette" label and the current price. Each amount is `formatPrice`'s
      text followed by " TL". */
  datatype PriceView = Regular(current: string) | Discounted(original: string, current: string)

  /** One card. `discountPercent` is computed by the source but not shown. */
  datatype RenderItem = RenderItem(
    id: string,
    favorite: bool,
    favoriteLabel: string,
    link: string,
    image: string,
    name: string,
    brand: string,
    featured: bool,
    installment: bool,
    discountPercent: int,
    price: PriceView,
    fastDelivery: bool)

  /** What the render region holds. */
  datatype Surface = Blank | Cards(items: seq<RenderItem>) | LoadError

  /** The element whose `innerHTML` the widget assigns. */
  class Container {
    var content: Surface

    constructor ()
      ensures content == Blank
    {
      content := Blank;
    }
  }

  /** `favorites.includes(id)`: element membership on an array, substring
      search on a string, and a `TypeError` (`None`) on anything else. */
  function Includes(favorites: Json, id: string): (r: Option<bool>)
    ensures r.Some? <==> favorites.JArr? || favorites.JStr?
    ensures favorites.JArr? ==> r == Some(JStr(id) in favorites.items)
  {
    match favorites
    case JArr(list) => Some(JStr(id) in list)
    case JStr(s) => Some(Seqs.IsSubstring(id, s))
    case _ => None
  }

  /** An amount as shown: `formatPrice`'s text followed by " TL". */
  function Money(price: Number): (r: string)
    ensures '.' !in price.text ==> r == price.text + " TL"
    ensures |r| >= 3 && r[|r| - 3..] == " TL" && r[..|r| - 3] == FormatPrice(price.text)
  {
    FormatPrice(price.text) + " TL"
  }

  /** The card for one record, or `None` when building it throws: the record
      is not an object, its `id` is missing or `null`, its `price` is missing or
      `null`, or `favorites.includes` is not a function. A `price` that is not
      a number, or a truthy `original_price` that is not a number, is also
      `None`: JavaScript's numeric coercion of those is not modelled. */
  function RenderItemOf(product: Json, favorites: Json): (r: Option<RenderItem>)
    ensures r.Some? <==>
              product.JObj? &&
              Property(product, "id").Some? && !Property(product, "id").value.JNull? &&
              Property(product, "price").Some? && Property(product, "price").value.JNum? &&
              (TruthyOpt(Property(product, "original_price")) ==> Property(product, "original_price").value.JNum?) &&
              (favorites.JArr? || favorites.JStr?)
    // the heart is active, with the "remove" label, exactly when `id.toString()` is a favorite
    ensures r.Some? ==> r.value.id == ToText(Property(product, "id").value)
    ensures r.Some? && favorites.JArr? ==> (r.value.favorite <==> JStr(r.value.id) in favorites.items)
    ensures r.Some? && favorites.JStr? ==> (r.value.favorite <==> Seqs.IsSubstring(r.value.id, favorites.s))
    ensures r.Some? ==> r.value.favoriteLabel == if r.value.favorite then RemoveLabel else AddLabel
    // the discount block appears exactly when `original_price` is truthy and above `price`
    ensures r.Some? ==>
              var price := Property(product, "price").value.n;
              var original := Property(product, "original_price");
              (r.value.price.Discounted? <==> TruthyOpt(original) && original.value.n.value > price.value) &&
              (r.value.price.Discounted? ==> r.value.price == Discounted(Money(original.value.n), Money(price))) &&
              (r.value.price.Regular? ==> r.value.price == Regular(Money(price)))
    // the installment badge appears exactly when `price > 500`
    ensures r.Some? ==> (r.value.installment <==> Property(product, "price").value.n.value > 500.0)
  {
    var id := Property(product, "id");
    var price := Property(product, "price");
    var original := Property(product, "original_price");
    if !product.JObj? || id.None? || id.value.JNull? then None
    else if price.None? || !price.value.JNum? then None
    else if TruthyOpt(original) && !original.value.JNum? then None
    else match Includes(favorites, ToText(id.value))
      case None => None
      case Some(isFavorite) =>
        var p := price.value.n;
        var discounted := TruthyOpt(original) && original.value.n.value > p.value;
        var url := Property(product, "url");
        Some(RenderItem(
          id := ToText(id.value),
          favorite := isFavorite,
          favoriteLabel := if isFavorite then RemoveLabel else AddLabel,
          link := if TruthyOpt(url) then ToText(url.value) else "#",
          image := ToTextOpt(Property(product, "img")),
          name := ToTextOpt(Property(product, "name")),
          brand := ToTextOpt(Property(product, "brand")),
          featured := TruthyOpt(Property(product, "featured")),
          installment := p.value > InstallmentThreshold,
          discountPercent := if discounted then DiscountPercent(original.value.n.value, p.value) else 0,
          price := if discounted then Discounted(Money(original.value.n), Money(p)) else Regular(Money(p)),
          fastDelivery := TruthyOpt(Property(product, "fastDelivery"))))
  }

  /** `.map(...)`: one card per record, in order; one record that throws
      makes the whole render throw. */
  function RenderAll(products: seq<Json>, favorites: Json): (r: Option<seq<RenderItem>>)
    ensures r.Some? <==> forall i :: 0 <= i < |products| ==> RenderItemOf(products[i], favorites).Some?
    ensures r.Some? ==>
              |r.value| == |products| &&
              forall i :: 0 <= i < |products| ==> Some(r.value[i]) == RenderItemOf(products[i], favorites)
  {
    if |products| == 0 then Some([])
    else match (RenderItemOf(products[0], favorites), RenderAll(products[1..], favorites))
      case (Some(item), Some(rest)) =>
        var r := [item] + rest;
        assert forall i :: 1 <= i < |products| ==> products[i] == products[1..][i - 1];
        Some(r)
      case (None, _) => None
      case (_, None) =>
        assert forall i :: 1 <= i < |products| ==> products[i] == products[1..][i - 1];
        None
  }

  /** `products.slice(0, 15).map(...)`; anything but an array throws
      (`slice` or `map` is not a function). The cards are the first
      `min(|list|, 15)` records' cards, in feed order. */
  function RenderList(products: Json, favorites: Json): (r: Option<seq<RenderItem>>)
    ensures !products.JArr? ==> r.None?
    ensures products.JArr? ==>
              var n := if |products.items| < MaxDisplayed then |products.items| else MaxDisplayed;
              (r.Some? <==> forall i :: 0 <= i < n ==> RenderItemOf(products.items[i], favorites).Some?) &&
              (r.Some? ==>
                 |r.value| == n &&
                 forall i :: 0 <= i < n ==> Some(r.value[i]) == RenderItemOf(products.items[i], favorites))
  {
    match products
    case JArr(list) =>
      var n := if |list| < MaxDisplayed then |list| else MaxDisplayed;
      assert forall i :: 0 <= i < n ==> list[..n][i] == list[i];
      RenderAll(list[..n], favorites)
    case _ => None
  }

  /** Records after the 15th are never looked at. */
  lemma RenderIgnoresTail(list: seq<Json>, tail: seq<Json>, favorites: Json)
    requires |list| >= MaxDisplayed
    ensures RenderList(JArr(list + tail), favorites) == RenderList(JArr(list), favorites)
  {
    assert (list + tail)[..MaxDisplayed] == list[..MaxDisplayed];
  }

  /** The inline percentage agrees with `calculateDiscount`, with 0 where
      that returns `null`. */
  lemma InlineDiscountAgrees(product: Json, favorites: Json)
    requires RenderItemOf(product, favorites).Some?
    ensures var card := RenderItemOf(product, favorites).value;
            var price := Property(product, "price").value.n.value;
            var original := Property(product, "original_price");
            var fromFormula :=
              CalculateDiscount(if original.Some? && original.value.JNum? then Some(original.value.n.value) else None, price);
            card.discountPercent == (if fromFormula.Some? then fromFormula.value else 0)
  {
  }
}
