/**
 * The shopping cart of src/context/CartContext.jsx: an ordered list of lines,
 * one per product id, each with a positive quantity, mirrored into the
 * browser's local storage under the key `missdelice_cart`.
 *
 * Prices are integer cents (the source multiplies `parseFloat(price)`).
 */
module Cart {
  import opened Text

  /** What `addToCart` receives: a product of the menu, or a cart line re-added with "+". */
  datatype Article = Article(id: int, name: string, priceCents: nat)

  /** A cart line, `{ ...product, quantity }`. */
  datatype Line = Line(article: Article, quantity: int)

  predicate HasId(items: seq<Line>, id: int) {
    exists i :: 0 <= i < |items| && items[i].article.id == id
  }

  predicate UniqueIds(items: seq<Line>) {
    forall i, j :: 0 <= i < j < |items| ==> items[i].article.id != items[j].article.id
  }

  /** The cart invariant: one line per product id, every quantity at least 1. */
  predicate WellFormed(items: seq<Line>) {
    UniqueIds(items) && forall i :: 0 <= i < |items| ==> items[i].quantity >= 1
  }

  /** `items.findIndex(item => item.id === id)` for an id that is present. */
  function IndexOf(items: seq<Line>, id: int): (k: nat)
    requires HasId(items, id)
    ensures k < |items| && items[k].article.id == id
    ensures forall j :: 0 <= j < k ==> items[j].article.id != id
  {
    if items[0].article.id == id then 0
    else
      assert HasId(items[1..], id) by {
        var i :| 0 <= i < |items| && items[i].article.id == id;
        assert items[1..][i - 1] == items[i];
      }
      1 + IndexOf(items[1..], id)
  }

  /** `items.map(item => item.id === id ? { ...item, quantity: item.quantity + delta } : item)`. */
  function Bump(items: seq<Line>, id: int, delta: int): (r: seq<Line>)
    ensures |r| == |items|
    ensures forall i :: 0 <= i < |items| ==>
      r[i] == if items[i].article.id == id then items[i].(quantity := items[i].quantity + delta) else items[i]
  {
    seq(|items|, i requires 0 <= i < |items| =>
      if items[i].article.id == id then items[i].(quantity := items[i].quantity + delta) else items[i])
  }

  /** `items.filter(item => item.id !== id)`. */
  function Without(items: seq<Line>, id: int): (r: seq<Line>)
    ensures |r| <= |items|
  {
    if items == [] then []
    else if items[0].article.id == id then Without(items[1..], id)
    else [items[0]] + Without(items[1..], id)
  }

  /** The new line list computed by `addToCart(product)`. */
  function AddItem(items: seq<Line>, p: Article): seq<Line> {
    if HasId(items, p.id) then Bump(items, p.id, 1) else items + [Line(p, 1)]
  }

  /** The new line list computed by `removeFromCart(id)`; the source dereferences the found line unchecked. */
  function RemoveItem(items: seq<Line>, id: int): seq<Line>
    requires HasId(items, id)
  {
    if items[IndexOf(items, id)].quantity == 1 then Without(items, id) else Bump(items, id, -1)
  }

  /** `getCartCount`: `reduce((total, item) => total + item.quantity, 0)`. */
  function Count(items: seq<Line>): int {
    if items == [] then 0 else Count(items[..|items| - 1]) + items[|items| - 1].quantity
  }

  /** What one line adds to the total: `price * item.quantity`. */
  function Subtotal(l: Line): int {
    l.article.priceCents * l.quantity
  }

  /** `getCartTotal`: `reduce((total, item) => total + price * item.quantity, 0)`, in cents. */
  function Total(items: seq<Line>): int {
    if items == [] then 0 else Total(items[..|items| - 1]) + Subtotal(items[|items| - 1])
  }

  /** The unit price by which `addToCart(p)` raises the total: that of the line already holding p's id, if any. */
  function UnitPriceFor(items: seq<Line>, p: Article): nat {
    if HasId(items, p.id) then items[IndexOf(items, p.id)].article.priceCents else p.priceCents
  }

  // ---------------------------------------------------------------------------
  // Line-level facts
  // ---------------------------------------------------------------------------

  /** With unique ids the map of `addToCart`/`removeFromCart` touches exactly one line. */
  lemma BumpOne(items: seq<Line>, id: int, delta: int)
    requires UniqueIds(items) && HasId(items, id)
    ensures Bump(items, id, delta) == items[IndexOf(items, id) := items[IndexOf(items, id)].(quantity := items[IndexOf(items, id)].quantity + delta)]
  {
    var k := IndexOf(items, id);
    var r := Bump(items, id, delta);
    forall i | 0 <= i < |items| && i != k ensures items[i].article.id != id {
      if i < k { } else { assert items[k].article.id != items[i].article.id; }
    }
  }

  /** With unique ids the filter of `removeFromCart` drops exactly the one line. */
  lemma {:induction false} WithoutOne(items: seq<Line>, id: int)
    requires UniqueIds(items) && HasId(items, id)
    ensures Without(items, id) == items[..IndexOf(items, id)] + items[IndexOf(items, id) + 1..]
  {
    var k := IndexOf(items, id);
    if k == 0 {
      WithoutAbsent(items[1..], id);
      assert items[1..] == items[k + 1..];
    } else {
      var t := items[1..];
      assert UniqueIds(t);
      assert t[k - 1] == items[k];
      assert HasId(t, id);
      assert IndexOf(t, id) == k - 1;
      WithoutOne(t, id);
      assert items[..k] == [items[0]] + t[..k - 1];
      assert items[k + 1..] == t[k..];
    }
  }

  lemma {:induction false} WithoutAbsent(items: seq<Line>, id: int)
    requires forall i :: 0 <= i < |items| ==> items[i].article.id != id
    ensures Without(items, id) == items
  {
    if items != [] {
      WithoutAbsent(items[1..], id);
      assert [items[0]] + items[1..] == items;
    }
  }

  /** addToCart of a new product id appends one line with quantity 1 and changes no other line. */
  lemma AddNew(items: seq<Line>, p: Article)
    requires !HasId(items, p.id)
    ensures AddItem(items, p) == items + [Line(p, 1)]
    ensures |AddItem(items, p)| == |items| + 1
  {
  }

  /** addToCart of a present id raises only that line's quantity by 1; length and order are kept. */
  lemma AddExisting(items: seq<Line>, p: Article, k: nat)
    requires UniqueIds(items) && k < |items| && items[k].article.id == p.id
    ensures |AddItem(items, p)| == |items|
    ensures AddItem(items, p)[k] == items[k].(quantity := items[k].quantity + 1)
    ensures forall j :: 0 <= j < |items| && j != k ==> AddItem(items, p)[j] == items[j]
  {
    assert HasId(items, p.id);
    assert IndexOf(items, p.id) == k;
    BumpOne(items, p.id, 1);
  }

  /** removeFromCart deletes a line of quantity 1 and otherwise lowers it by 1; nothing else changes. */
  lemma RemoveShape(items: seq<Line>, id: int)
    requires WellFormed(items) && HasId(items, id)
    ensures var k := IndexOf(items, id);
      RemoveItem(items, id) ==
        if items[k].quantity == 1 then items[..k] + items[k + 1..]
        else items[k := items[k].(quantity := items[k].quantity - 1)]
  {
    if items[IndexOf(items, id)].quantity == 1 { WithoutOne(items, id); } else { BumpOne(items, id, -1); }
  }

  /** Whatever line list a removal leaves is stripped of nothing but that product's line. */
  lemma RemoveKeepsOthers(items: seq<Line>, id: int, other: int)
    requires WellFormed(items) && HasId(items, id) && other != id
    ensures HasId(RemoveItem(items, id), other) == HasId(items, other)
  {
    RemoveShape(items, id);
    var k := IndexOf(items, id);
    var r := RemoveItem(items, id);
    if HasId(items, other) {
      var i :| 0 <= i < |items| && items[i].article.id == other;
      if items[k].quantity == 1 {
        if i < k { assert r[i] == items[i]; } else { assert r[i - 1] == items[i]; }
      } else {
        assert r[i].article.id == other;
      }
    }
    if HasId(r, other) {
      var i :| 0 <= i < |r| && r[i].article.id == other;
      if items[k].quantity == 1 {
        if i < k { assert items[i] == r[i]; } else { assert items[i + 1] == r[i]; }
      } else {
        assert items[i].article.id == other;
      }
    }
  }

  /** The cart invariant survives addToCart. */
  lemma AddPreservesWellFormed(items: seq<Line>, p: Article)
    requires WellFormed(items)
    ensures WellFormed(AddItem(items, p))
  {
    if HasId(items, p.id) { AddExisting(items, p, IndexOf(items, p.id)); }
  }

  /** The cart invariant survives removeFromCart. */
  lemma RemovePreservesWellFormed(items: seq<Line>, id: int)
    requires WellFormed(items) && HasId(items, id)
    ensures WellFormed(RemoveItem(items, id))
  {
    RemoveShape(items, id);
    var k := IndexOf(items, id);
    var r := RemoveItem(items, id);
    if items[k].quantity == 1 {
      forall i, j | 0 <= i < j < |r| ensures r[i].article.id != r[j].article.id {
        var i' := if i < k then i else i + 1;
        var j' := if j < k then j else j + 1;
        assert r[i] == items[i'] && r[j] == items[j'];
      }
    }
  }

  // ---------------------------------------------------------------------------
  // Count and total
  // ---------------------------------------------------------------------------

  lemma {:induction false} CountConcat(a: seq<Line>, b: seq<Line>)
    ensures Count(a + b) == Count(a) + Count(b)
  {
    if b == [] {
      assert a + b == a;
    } else {
      assert (a + b)[..|a + b| - 1] == a + b[..|b| - 1];
      CountConcat(a, b[..|b| - 1]);
    }
  }

  lemma {:induction false} TotalConcat(a: seq<Line>, b: seq<Line>)
    ensures Total(a + b) == Total(a) + Total(b)
  {
    if b == [] {
      assert a + b == a;
    } else {
      assert (a + b)[..|a + b| - 1] == a + b[..|b| - 1];
      TotalConcat(a, b[..|b| - 1]);
    }
  }

  lemma Single(l: Line)
    ensures Count([l]) == l.quantity && Total([l]) == Subtotal(l)
  {
    assert [l][..0] == [];
  }

  /** Changing a line's quantity by d changes its subtotal by d unit prices. */
  lemma SubtotalStep(l: Line, d: int)
    ensures Subtotal(l.(quantity := l.quantity + d)) == Subtotal(l) + d * l.article.priceCents
  {
    var p, q := l.article.priceCents, l.quantity;
    assert p * (q + d) == p * q + d * p;
  }

  lemma SubtotalOne(l: Line)
    requires l.quantity == 1
    ensures Subtotal(l) == l.article.priceCents
  {
  }

  /** The count and the total split around line k. */
  lemma CountAround(items: seq<Line>, k: nat)
    requires k < |items|
    ensures Count(items) == Count(items[..k]) + items[k].quantity + Count(items[k + 1..])
  {
    assert items == items[..k] + [items[k]] + items[k + 1..];
    CountConcat(items[..k] + [items[k]], items[k + 1..]);
    CountConcat(items[..k], [items[k]]);
    Single(items[k]);
  }

  lemma TotalAround(items: seq<Line>, k: nat)
    requires k < |items|
    ensures Total(items) == Total(items[..k]) + Subtotal(items[k]) + Total(items[k + 1..])
  {
    assert items == items[..k] + [items[k]] + items[k + 1..];
    TotalConcat(items[..k] + [items[k]], items[k + 1..]);
    TotalConcat(items[..k], [items[k]]);
    Single(items[k]);
  }

  /** Replacing one line changes the count and the total by that line's difference only. */
  lemma ReplaceAt(items: seq<Line>, k: nat, l: Line)
    requires k < |items|
    ensures Count(items[k := l]) == Count(items) - items[k].quantity + l.quantity
    ensures Total(items[k := l]) == Total(items) - Subtotal(items[k]) + Subtotal(l)
  {
    var r := items[k := l];
    assert r[..k] == items[..k] && r[k + 1..] == items[k + 1..];
    CountAround(items, k);
    CountAround(r, k);
    TotalAround(items, k);
    TotalAround(r, k);
  }

  /** Dropping one line lowers the count and total by that line's share. */
  lemma DropAt(items: seq<Line>, k: nat)
    requires k < |items|
    ensures Count(items[..k] + items[k + 1..]) == Count(items) - items[k].quantity
    ensures Total(items[..k] + items[k + 1..]) == Total(items) - Subtotal(items[k])
  {
    CountAround(items, k);
    CountConcat(items[..k], items[k + 1..]);
    TotalAround(items, k);
    TotalConcat(items[..k], items[k + 1..]);
  }

  /** addToCart raises the item count by exactly 1 and the total by the line's unit price. */
  lemma AddCountTotal(items: seq<Line>, p: Article)
    requires WellFormed(items)
    ensures Count(AddItem(items, p)) == Count(items) + 1
    ensures Total(AddItem(items, p)) == Total(items) + UnitPriceFor(items, p)
  {
    if HasId(items, p.id) {
      var k := IndexOf(items, p.id);
      AddExisting(items, p, k);
      assert AddItem(items, p) == items[k := items[k].(quantity := items[k].quantity + 1)];
      ReplaceAt(items, k, items[k].(quantity := items[k].quantity + 1));
      SubtotalStep(items[k], 1);
    } else {
      CountConcat(items, [Line(p, 1)]);
      TotalConcat(items, [Line(p, 1)]);
      Single(Line(p, 1));
      SubtotalOne(Line(p, 1));
    }
  }

  /** removeFromCart lowers the item count by exactly 1 and the total by that line's unit price. */
  lemma RemoveCountTotal(items: seq<Line>, id: int)
    requires WellFormed(items) && HasId(items, id)
    ensures Count(RemoveItem(items, id)) == Count(items) - 1
    ensures Total(RemoveItem(items, id)) == Total(items) - items[IndexOf(items, id)].article.priceCents
  {
    var k := IndexOf(items, id);
    RemoveShape(items, id);
    if items[k].quantity == 1 {
      DropOne(items, k);
    } else {
      LowerOne(items, k);
    }
  }

  lemma DropOne(items: seq<Line>, k: nat)
    requires k < |items| && items[k].quantity == 1
    ensures Count(items[..k] + items[k + 1..]) == Count(items) - 1
    ensures Total(items[..k] + items[k + 1..]) == Total(items) - items[k].article.priceCents
  {
    DropAt(items, k);
    SubtotalOne(items[k]);
  }

  lemma LowerOne(items: seq<Line>, k: nat)
    requires k < |items|
    ensures Count(items[k := items[k].(quantity := items[k].quantity - 1)]) == Count(items) - 1
    ensures Total(items[k := items[k].(quantity := items[k].quantity - 1)]) == Total(items) - items[k].article.priceCents
  {
    ReplaceAt(items, k, items[k].(quantity := items[k].quantity - 1));
    SubtotalStep(items[k], -1);
  }

  /** A well-formed cart has at least one item per line, and is empty exactly when its count is 0. */
  lemma {:induction false} CountAtLeastLines(items: seq<Line>)
    requires forall i :: 0 <= i < |items| ==> items[i].quantity >= 1
    ensures Count(items) >= |items|
    ensures Count(items) == 0 <==> items == []
  {
    if items != [] {
      CountAtLeastLines(items[..|items| - 1]);
    }
  }

  // ---------------------------------------------------------------------------
  // The provider's state
  // ---------------------------------------------------------------------------

  /** The state held by `CartProvider`: `cartItems`, `isCartOpen` and the persisted copy. */
  class CartStore {
    var items: seq<Line>
    /** `localStorage['missdelice_cart']`; None when the key is absent. */
    var stored: Option<seq<Line>>
    var isOpen: bool

    /** Lines are well formed and, once the save effect has run, the stored copy mirrors them. */
    ghost predicate Valid()
      reads this
    {
      WellFormed(items) && stored == Some(items)
    }

    /**
     * Mount: the lines are read back from storage (an empty cart if the key is
     * absent), then the save effect writes them again. The stored copy is one
     * this provider wrote, so it is well formed.
     */
    constructor (saved: Option<seq<Line>>)
      requires saved.Some? ==> WellFormed(saved.value)
      ensures Valid() && !isOpen
      ensures items == if saved.Some? then saved.value else []
    {
      items := if saved.Some? then saved.value else [];
      isOpen := false;
      stored := saved;
      new;
      Persist();
    }

    /** The effect `[cartItems]`: every change of the lines rewrites the stored copy. */
    method Persist()
      modifies this`stored
      ensures stored == Some(items)
    {
      stored := Some(items);
    }

    method AddToCart(p: Article)
      requires Valid()
      modifies this`items, this`stored
      ensures Valid()
      ensures items == AddItem(old(items), p)
      ensures Count(items) == old(Count(items)) + 1
      ensures Total(items) == old(Total(items)) + UnitPriceFor(old(items), p)
    {
      AddPreservesWellFormed(items, p);
      AddCountTotal(items, p);
      items := AddItem(items, p);
      Persist();
    }

    method RemoveFromCart(id: int)
      requires Valid() && HasId(items, id)
      modifies this`items, this`stored
      ensures Valid()
      ensures items == RemoveItem(old(items), id)
      ensures Count(items) == old(Count(items)) - 1
      ensures Total(items) == old(Total(items)) - old(items[IndexOf(items, id)].article.priceCents)
    {
      RemovePreservesWellFormed(items, id);
      RemoveCountTotal(items, id);
      items := RemoveItem(items, id);
      Persist();
    }

    /**
     * `clearCart` empties the lines and removes the stored key; the lines are a
     * new array, so the save effect then writes the empty list back.
     */
    method ClearCart()
      requires Valid()
      modifies this`items, this`stored
      ensures Valid() && items == [] && stored == Some([])
      ensures Count(items) == 0 && Total(items) == 0
    {
      items := [];
      stored := None;
      Persist();
    }

    method SetIsCartOpen(open: bool)
      modifies this`isOpen
      ensures isOpen == open
    {
      isOpen := open;
    }
  }
}
