/** The `cart` state cell of `CartProvider`: every handler replaces the whole
    list with the result of a ledger update, and the effect that follows each
    change writes the list back to the `shoppingCart` storage entry. */
module CartProvider {

  import opened Wrappers
  import opened Catalog
  import opened Ledger

  class CartStore {
    /** The list held by `useState`. */
    var cart: seq<Line>
    /** The `shoppingCart` storage entry; `None` when absent or unparsable. */
    var stored: Option<seq<Line>>

    /** The storage entry mirrors the cart after every change. */
    ghost predicate Synced()
      reads this
    {
      stored == Some(cart)
    }

    /** Start from the stored cart, or from the empty one when there is none;
        the first effect run then writes the cart back. */
    constructor (snapshot: Option<seq<Line>>)
      ensures cart == LoadOrEmpty(snapshot)
      ensures snapshot.None? ==> cart == []
      ensures snapshot.Some? ==> cart == snapshot.value
      ensures Synced()
    {
      cart := LoadOrEmpty(snapshot);
      stored := Some(LoadOrEmpty(snapshot));
    }

    method AddToCart(p: Product)
      requires Synced()
      modifies this
      ensures Synced()
      ensures cart == Ledger.AddToCart(old(cart), p)
      ensures Valid(old(cart)) && p.stock >= 1
        && (forall i :: 0 <= i < |old(cart)| && old(cart)[i].product.id == p.id ==> old(cart)[i].product == p)
        ==> Valid(cart)
    {
      if Valid(cart) && p.stock >= 1
        && (forall i :: 0 <= i < |cart| && cart[i].product.id == p.id ==> cart[i].product == p)
      {
        AddPreservesValid(cart, p);
      }
      cart := Ledger.AddToCart(cart, p);
      stored := Some(cart);
    }

    method RemoveFromCart(id: int)
      requires Synced()
      modifies this
      ensures Synced()
      ensures cart == Ledger.RemoveFromCart(old(cart), id)
      ensures Valid(old(cart)) ==> Valid(cart)
    {
      if Valid(cart) {
        RemovePreservesValid(cart, id);
      }
      cart := Ledger.RemoveFromCart(cart, id);
      stored := Some(cart);
    }

    /** Below 1 delegates to `RemoveFromCart`, as the handler does. */
    method UpdateQuantity(id: int, n: int)
      requires Synced()
      modifies this
      ensures Synced()
      ensures cart == Ledger.UpdateQuantity(old(cart), id, n)
      ensures Valid(old(cart)) ==> Valid(cart)
    {
      if Valid(cart) {
        UpdatePreservesValid(cart, id, n);
      }
      if n < 1 {
        RemoveFromCart(id);
        return;
      }
      cart := Ledger.UpdateQuantity(cart, id, n);
      stored := Some(cart);
    }

    method ClearCart()
      requires Synced()
      modifies this
      ensures Synced()
      ensures cart == Ledger.ClearCart(old(cart)) && cart == []
      ensures TotalItems(cart) == 0 && TotalPrice(cart) == 0
    {
      cart := Ledger.ClearCart(cart);
      stored := Some(cart);
    }

    /** `getTotalItems`: the `reduce` over the current cart. */
    method GetTotalItems() returns (total: int)
      ensures total == TotalItems(cart)
    {
      total := 0;
      var i := 0;
      while i < |cart|
        invariant 0 <= i <= |cart|
        invariant total == TotalItems(cart[..i])
      {
        assert cart[..i + 1][..i] == cart[..i];
        total := total + cart[i].quantity;
        i := i + 1;
      }
      assert cart[..|cart|] == cart;
    }

    /** `getTotalPrice`: the `reduce` over the current cart, in cents. */
    method GetTotalPrice() returns (total: int)
      ensures total == TotalPrice(cart)
    {
      total := 0;
      var i := 0;
      while i < |cart|
        invariant 0 <= i <= |cart|
        invariant total == TotalPrice(cart[..i])
      {
        assert cart[..i + 1][..i] == cart[..i];
        total := total + cart[i].product.price * cart[i].quantity;
        i := i + 1;
      }
      assert cart[..|cart|] == cart;
    }
  }
}
