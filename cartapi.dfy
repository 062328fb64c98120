/** The session and the cart endpoints (app.py:158-188): `cart_state` walks the
    session's cart, and add, remove and clear change it in place before
    answering with the fresh aggregate. */
module CartApi {
  import opened Wrappers
  import opened Seqs
  import opened Catalog
  import opened Carts
  import opened CartView

  /** The part of the session the cart endpoints use: `session["cart"]`, kept
      as its keys in iteration order and its quantities. A session without a
      cart reads as an empty one. */
  class Session {
    var order: seq<string>
    var quantities: map<string, int>

    /** The cart as a dict value. */
    function CartValue(): Cart
      reads this
    {
      Cart(order, quantities)
    }

    ghost predicate Valid()
      reads this
    {
      CartValue().Valid()
    }

    constructor ()
      ensures Valid() && CartValue() == Empty()
    {
      order := [];
      quantities := map[];
    }

    /** `cart_state()`: one line item per cart key the catalog has, in cart
        order, then the total and the count over those items. */
    method CartState(catalog: seq<Product>) returns (view: Aggregate)
      requires Valid()
      ensures view == View(CartValue(), catalog)
    {
      var idx := Index(catalog);
      var items: seq<LineItem> := [];
      var i := 0;
      while i < |order|
        invariant 0 <= i <= |order|
        invariant Covers(order[..i], quantities)
        invariant items == Items(order[..i], quantities, idx)
      {
        var pid := order[i];
        assert order[..i + 1][..i] == order[..i];
        if pid in idx {
          items := items + [MakeItem(idx[pid], quantities[pid])];
        }
        i := i + 1;
      }
      assert order[..i] == order;
      view := Aggregate(items, Total(items), Count(items));
    }

    /** POST /api/cart/add with body `{id, qty?}`. */
    method AddItem(id: JsonValue, rawQty: Option<int>, catalog: seq<Product>) returns (view: Aggregate)
      requires Valid()
      modifies this
      ensures Valid()
      ensures CartValue() == Add(old(CartValue()), KeyOf(id), RequestedQty(rawQty))
      ensures view == View(CartValue(), catalog)
    {
      var pid := KeyOf(id);
      var n := RequestedQty(rawQty);
      var current := if pid in quantities then quantities[pid] else 0;
      if pid !in quantities {
        order := order + [pid];
      }
      quantities := quantities[pid := current + n];
      view := CartState(catalog);
    }

    /** POST /api/cart/remove with body `{id}`. */
    method RemoveItem(id: JsonValue, catalog: seq<Product>) returns (view: Aggregate)
      requires Valid()
      modifies this
      ensures Valid()
      ensures CartValue() == Remove(old(CartValue()), KeyOf(id))
      ensures view == View(CartValue(), catalog)
    {
      var pid := KeyOf(id);
      if pid in quantities {
        order := Without(order, pid);
        quantities := quantities - {pid};
      }
      view := CartState(catalog);
    }

    /** POST /api/cart/clear: the cart is emptied and the answer is the empty
        aggregate. */
    method ClearCart(catalog: seq<Product>) returns (view: Aggregate)
      requires Valid()
      modifies this
      ensures Valid() && CartValue() == Empty()
      ensures view == Aggregate([], 0, 0)
    {
      order := [];
      quantities := map[];
      view := CartState(catalog);
      ClearedView(CartValue(), catalog);
    }
  }

  /** A client of the endpoints: one add of two shirts at 19.99 each,
      then a remove, followed from the contracts above alone. */
  method RedShirtScenario()
  {
    var shirt := Product(1, "Red Shirt", 1999, None, Some("Apparel"), None, None);
    var catalog := [shirt];
    var session := new Session();
    var view := session.AddItem(JInt(1), Some(2), catalog);
    assert IdKey(1) == "1";
    assert Index(catalog) == map["1" := shirt];
    assert session.CartValue() == Cart(["1"], map["1" := 2]);
    assert view.items == [MakeItem(shirt, 2)] && view.items[..0] == [];
    assert view.count == Count(view.items) && view.total == Total(view.items);
    assert Count([MakeItem(shirt, 2)]) == Count([]) + 2;
    assert Total([MakeItem(shirt, 2)]) == Total([]) + 1999 * 2;
    assert view.count == 2 && view.total == 3998;
    view := session.RemoveItem(JInt(1), catalog);
    assert view == Aggregate([], 0, 0);
  }
}
