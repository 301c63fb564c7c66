/**
 * The menu page of src/pages/Menu.jsx: the products of a category, the
 * price label, the stock overlay and badges, and the Add button that puts
 * a product in the cart and opens it.
 *
 * Prices are integer cents; the page's `parseFloat(price).toFixed(2)` of a
 * two-decimal price is the cents written with two decimals.
 */
module MenuPage {
  import opened Text
  import Cart

  /**
   * A product as the page receives it: the category id or null, and the
   * three flag columns as numbers (0 or 1 when written by the admin).
   */
  datatype MenuItem = MenuItem(
    id: nat, name: string, priceCents: nat, categoryId: Option<int>,
    isOutOfStock: int, isNew: int, isFeatured: int)

  // ---------------------------------------------------------------------------
  // Products of a category
  // ---------------------------------------------------------------------------

  /** `getCategoryItems(c)`: `products.filter(product => product.category_id === c)`. */
  function CategoryItems(products: seq<MenuItem>, c: int): (r: seq<MenuItem>)
    ensures |r| <= |products|
    ensures forall k :: 0 <= k < |r| ==> r[k].categoryId == Some(c)
  {
    if products == [] then []
    else (if products[0].categoryId == Some(c) then [products[0]] else []) + CategoryItems(products[1..], c)
  }

  /** A product is listed under c exactly when it belongs to c. */
  lemma {:induction false} CategoryItemsMembers(products: seq<MenuItem>, c: int, p: MenuItem)
    ensures p in CategoryItems(products, c) <==> p in products && p.categoryId == Some(c)
  {
    if products != [] {
      CategoryItemsMembers(products[1..], c, p);
      assert products == [products[0]] + products[1..];
    }
  }

  /** The filter keeps the fetched order: it distributes over concatenation. */
  lemma {:induction false} CategoryItemsAppend(a: seq<MenuItem>, b: seq<MenuItem>, c: int)
    ensures CategoryItems(a + b, c) == CategoryItems(a, c) + CategoryItems(b, c)
  {
    if a != [] {
      assert (a + b)[0] == a[0];
      assert (a + b)[1..] == a[1..] + b;
      CategoryItemsAppend(a[1..], b, c);
    } else {
      assert a + b == b;
    }
  }

  /** A product without a category is listed under no category. */
  lemma Uncategorised(products: seq<MenuItem>, p: MenuItem, c: int)
    requires p.categoryId.None?
    ensures p !in CategoryItems(products, c)
  {
    CategoryItemsMembers(products, c, p);
  }

  /** The number of fetched products whose category is c. */
  function CountIn(products: seq<MenuItem>, c: int): nat {
    if products == [] then 0
    else (if products[|products| - 1].categoryId == Some(c) then 1 else 0) + CountIn(products[..|products| - 1], c)
  }

  /** The "N choix" badge of a category card counts exactly the products of that category. */
  lemma {:induction false} ChoiceCount(products: seq<MenuItem>, c: int)
    ensures |CategoryItems(products, c)| == CountIn(products, c)
  {
    if products != [] {
      var init, last := products[..|products| - 1], products[|products| - 1];
      assert products == init + [last];
      CategoryItemsAppend(init, [last], c);
      ChoiceCount(init, c);
    }
  }

  /** The badge text of a category card. */
  function ChoiceLabel(products: seq<MenuItem>, c: int): (s: string)
    ensures |s| >= 7 && s[|s| - 6..] == " choix"
  {
    NatToString(|CategoryItems(products, c)|) + " choix"
  }

  // ---------------------------------------------------------------------------
  // formatPrice
  // ---------------------------------------------------------------------------

  /** `parseFloat(price).toFixed(2).replace('.', ',') + ' €'` on a price in cents. */
  function FormatPrice(cents: nat): (s: string)
    ensures |s| >= 6
    ensures s[|s| - 2..] == " €" && s[|s| - 5] == ','
  {
    NatToString(cents / 100) + "," + TwoDigits(cents % 100) + " €"
  }

  /** Reads a price label back as cents. */
  function LabelCents(s: string): nat
    requires |s| >= 6 && AllDigits(s[..|s| - 5])
    requires IsDigit(s[|s| - 4]) && IsDigit(s[|s| - 3])
  {
    ParseDigits(s[..|s| - 5]) * 100 + DigitValue(s[|s| - 4]) * 10 + DigitValue(s[|s| - 3])
  }

  /** LabelCents inverts FormatPrice: euros, then the two cent digits after the comma. */
  lemma FormatPriceRoundTrip(cents: nat)
    ensures var s := FormatPrice(cents);
      AllDigits(s[..|s| - 5]) && IsDigit(s[|s| - 4]) && IsDigit(s[|s| - 3]) && LabelCents(s) == cents
  {
    var e, d := NatToString(cents / 100), TwoDigits(cents % 100);
    var s := FormatPrice(cents);
    assert s == e + "," + d + " €";
    assert s[..|s| - 5] == e;
    assert s[|s| - 4] == d[0] && s[|s| - 3] == d[1];
    ParseNatToString(cents / 100);
  }

  /** Different prices are shown differently. */
  lemma FormatPriceInjective(a: nat, b: nat)
    ensures FormatPrice(a) == FormatPrice(b) ==> a == b
  {
    FormatPriceRoundTrip(a);
    FormatPriceRoundTrip(b);
  }

  // ---------------------------------------------------------------------------
  // Overlay, badges and the Add button
  // ---------------------------------------------------------------------------

  /** The "Épuisé" overlay: `is_out_of_stock === 1`. */
  predicate ShowsOverlay(item: MenuItem) {
    item.isOutOfStock == 1
  }

  /** The NEW badge: `is_new === 1 && !is_out_of_stock`. */
  predicate ShowsNew(item: MenuItem) {
    item.isNew == 1 && item.isOutOfStock == 0
  }

  /** The ★ badge: `is_featured === 1 && !is_out_of_stock`. */
  predicate ShowsFeatured(item: MenuItem) {
    item.isFeatured == 1 && item.isOutOfStock == 0
  }

  /** The Add button: `!is_out_of_stock`. */
  predicate ShowsAdd(item: MenuItem) {
    item.isOutOfStock == 0
  }

  /** An out-of-stock product shows the overlay and neither badge nor the Add button. */
  lemma OutOfStockHidesActions(item: MenuItem)
    ensures item.isOutOfStock != 0 ==> !ShowsAdd(item) && !ShowsNew(item) && !ShowsFeatured(item)
    ensures ShowsOverlay(item) ==> !ShowsAdd(item)
  {
  }

  /** For a stock flag written by the admin (0 or 1), the overlay and the Add button are exclusive and exhaustive. */
  lemma OverlayOrAdd(item: MenuItem)
    requires 0 <= item.isOutOfStock <= 1
    ensures ShowsOverlay(item) <==> !ShowsAdd(item)
  {
  }

  /** The cart article a click on Add passes to `addToCart`. */
  function ArticleOf(item: MenuItem): (a: Cart.Article)
    ensures a.id == item.id && a.name == item.name && a.priceCents == item.priceCents
  {
    Cart.Article(item.id, item.name, item.priceCents)
  }

  /**
   * The Add button's click: `addToCart(item)` then `setIsCartOpen(true)`.
   * The count rises by one, the total by the product's unit price, and the
   * cart opens.
   */
  method ClickAdd(cart: Cart.CartStore, item: MenuItem)
    requires ShowsAdd(item) && cart.Valid()
    modifies cart
    ensures cart.Valid() && cart.isOpen
    ensures cart.items == Cart.AddItem(old(cart.items), ArticleOf(item))
    ensures Cart.Count(cart.items) == old(Cart.Count(cart.items)) + 1
    ensures Cart.Total(cart.items) == old(Cart.Total(cart.items)) + Cart.UnitPriceFor(old(cart.items), ArticleOf(item))
  {
    cart.AddToCart(ArticleOf(item));
    cart.SetIsCartOpen(true);
  }
}
