/** The cart ledger of `CartProvider`: an ordered list of lines, each a
    product snapshot with a quantity, and the pure updates that `setCart`
    is handed (`prevCart => ...`), plus the two totals folded over it. */
module Ledger {

  import opened Wrappers
  import Seqs
  import opened Catalog

  datatype Line = Line(product: Product, quantity: int)

  function Min(a: int, b: int): (m: int)
  {
    if a <= b then a else b
  }

  /** Some line of `cart` carries product id `id`. */
  predicate InCart(cart: seq<Line>, id: int)
  {
    exists i :: 0 <= i < |cart| && cart[i].product.id == id
  }

  /** At most one line per product id. */
  predicate IdsDistinct(cart: seq<Line>)
  {
    forall i, j :: 0 <= i < j < |cart| ==> cart[i].product.id != cart[j].product.id
  }

  /** The ledger invariant: one line per id, and every quantity within 1..stock. */
  predicate Valid(cart: seq<Line>)
  {
    IdsDistinct(cart)
    && forall i :: 0 <= i < |cart| ==> 1 <= cart[i].quantity <= cart[i].product.stock
  }

  /** `prevCart.find(item => item.id === id)`, as the index of the line found. */
  function Find(cart: seq<Line>, id: int): (r: Option<nat>)
    ensures r.None? <==> !InCart(cart, id)
    ensures r.Some? ==> (r.value < |cart| && cart[r.value].product.id == id
      && forall k :: 0 <= k < r.value ==> cart[k].product.id != id)
  {
    if cart == [] then None
    else if cart[0].product.id == id then Some(0)
    else
      match Find(cart[1..], id)
      case None =>
        assert forall k :: 1 <= k < |cart| ==> cart[k] == cart[1..][k - 1];
        None
      case Some(k) => Some(k + 1)
  }

  /** `addToCart(product)`: a product not yet in the cart is appended with
      quantity 1; otherwise every line with its id is incremented, capped at
      the added product's stock. */
  function AddToCart(cart: seq<Line>, p: Product): (r: seq<Line>)
    ensures !InCart(cart, p.id) ==> r == cart + [Line(p, 1)]
    ensures InCart(cart, p.id) ==> (|r| == |cart|
      && (forall i :: 0 <= i < |cart| && cart[i].product.id != p.id ==> r[i] == cart[i])
      && (forall i :: 0 <= i < |cart| && cart[i].product.id == p.id ==>
            r[i].product == cart[i].product && r[i].quantity == Min(cart[i].quantity + 1, p.stock)
            && r[i].quantity <= p.stock))
    ensures InCart(r, p.id)
    ensures forall id :: id != p.id ==> (InCart(r, id) <==> InCart(cart, id))
    ensures IdsDistinct(cart) ==> IdsDistinct(r)
  {
    match Find(cart, p.id)
    case Some(_) =>
      var r := seq(|cart|, i requires 0 <= i < |cart| =>
        if cart[i].product.id == p.id then cart[i].(quantity := Min(cart[i].quantity + 1, p.stock))
        else cart[i]);
      SameProductsSameIds(cart, r);
      r
    case None =>
      var r := cart + [Line(p, 1)];
      assert r[|cart|].product.id == p.id;
      assert forall id :: id != p.id ==> (InCart(r, id) <==> InCart(cart, id)) by {
        forall id | id != p.id && InCart(r, id) ensures InCart(cart, id) {
          var i :| 0 <= i < |r| && r[i].product.id == id;
          assert cart[i] == r[i];
        }
        forall id | InCart(cart, id) ensures InCart(r, id) {
          var i :| 0 <= i < |cart| && cart[i].product.id == id;
          assert r[i] == cart[i];
        }
      }
      r
  }

  /** `removeFromCart(id)`: the lines whose id differs, in their order. */
  function RemoveFromCart(cart: seq<Line>, id: int): (r: seq<Line>)
    ensures !InCart(r, id)
    ensures Seqs.IsSubseq(r, cart)
    ensures forall l :: multiset(r)[l] == if l.product.id == id then 0 else multiset(cart)[l]
    ensures forall other :: other != id ==> (InCart(r, other) <==> InCart(cart, other))
    ensures !InCart(cart, id) ==> r == cart
    ensures IdsDistinct(cart) ==> IdsDistinct(r)
  {
    var keep := (l: Line) => l.product.id != id;
    Seqs.FilterSpec(cart, keep);
    if !InCart(cart, id) then
      Seqs.FilterKeepsAll(cart, keep);
      Seqs.Filter(cart, keep)
    else
      var r := Seqs.Filter(cart, keep);
      assert !InCart(r, id) by {
        assert forall i :: 0 <= i < |r| ==> r[i] in r;
      }
      assert forall other :: other != id && InCart(cart, other) ==> InCart(r, other) by {
        forall other | other != id && InCart(cart, other) ensures InCart(r, other) {
          var i :| 0 <= i < |cart| && cart[i].product.id == other;
          assert cart[i] in r;
        }
      }
      assert forall other :: InCart(r, other) ==> InCart(cart, other) by {
        forall other | InCart(r, other) ensures InCart(cart, other) {
          var i :| 0 <= i < |r| && r[i].product.id == other;
          assert r[i] in cart;
        }
      }
      assert IdsDistinct(cart) ==> IdsDistinct(r) by {
        if IdsDistinct(cart) { SubseqKeepsIdsDistinct(r, cart); }
      }
      r
  }

  /** `updateQuantity(id, n)`: below 1 removes the line; otherwise every line
      with that id takes `n`, capped at the line's own stock. */
  function UpdateQuantity(cart: seq<Line>, id: int, n: int): (r: seq<Line>)
    ensures n < 1 ==> r == RemoveFromCart(cart, id)
    ensures n >= 1 ==> (|r| == |cart|
      && (forall i :: 0 <= i < |cart| && cart[i].product.id != id ==> r[i] == cart[i])
      && (forall i :: 0 <= i < |cart| && cart[i].product.id == id ==>
            r[i].product == cart[i].product && r[i].quantity == Min(n, cart[i].product.stock)))
    ensures !InCart(cart, id) ==> r == cart
    ensures n >= 1 ==> forall other :: InCart(r, other) <==> InCart(cart, other)
    ensures IdsDistinct(cart) ==> IdsDistinct(r)
  {
    if n < 1 then RemoveFromCart(cart, id)
    else
      var r := seq(|cart|, i requires 0 <= i < |cart| =>
        if cart[i].product.id == id then cart[i].(quantity := Min(n, cart[i].product.stock))
        else cart[i]);
      SameProductsSameIds(cart, r);
      assert !InCart(cart, id) ==> r == cart;
      r
  }

  /** `clearCart`: the empty cart, which holds no product and totals nothing. */
  function ClearCart(cart: seq<Line>): (r: seq<Line>)
    ensures r == [] && IdsDistinct(r)
    ensures forall id :: !InCart(r, id)
    ensures TotalItems(r) == 0 && TotalPrice(r) == 0
  {
    []
  }

  /** `getTotalItems`: `reduce((total, item) => total + item.quantity, 0)`,
      folded from the left as `reduce` does. */
  function TotalItems(cart: seq<Line>): (n: int)
    ensures cart == [] ==> n == 0
  {
    if cart == [] then 0
    else TotalItems(cart[..|cart| - 1]) + cart[|cart| - 1].quantity
  }

  /** What one line costs: `item.price * item.quantity`, in cents. */
  function Subtotal(l: Line): (c: int)
    ensures l.product.price >= 0 && l.quantity >= 0 ==> c >= 0
  {
    l.product.price * l.quantity
  }

  /** `getTotalPrice`: `reduce((total, item) => total + item.price * item.quantity, 0)`, in cents. */
  function TotalPrice(cart: seq<Line>): (c: int)
    ensures cart == [] ==> c == 0
  {
    if cart == [] then 0
    else TotalPrice(cart[..|cart| - 1]) + Subtotal(cart[|cart| - 1])
  }

  /** The state `useState` starts from: the stored cart, or the empty cart
      when nothing (or nothing parsable) was stored. */
  function LoadOrEmpty(stored: Option<seq<Line>>): (cart: seq<Line>)
  {
    match stored
    case Some(cart) => cart
    case None => []
  }

  // ---------------------------------------------------------------------------
  // Properties of the updates

  /** Lines that pair up product for product carry the same ids. */
  lemma SameProductsSameIds(a: seq<Line>, b: seq<Line>)
    requires |a| == |b| && forall i :: 0 <= i < |a| ==> a[i].product == b[i].product
    ensures forall id :: InCart(a, id) <==> InCart(b, id)
    ensures IdsDistinct(a) <==> IdsDistinct(b)
  {
    forall id ensures InCart(a, id) <==> InCart(b, id) {
      if InCart(a, id) {
        var i :| 0 <= i < |a| && a[i].product.id == id;
        assert b[i].product.id == id;
      }
      if InCart(b, id) {
        var i :| 0 <= i < |b| && b[i].product.id == id;
        assert a[i].product.id == id;
      }
    }
  }

  lemma SubseqKeepsIdsDistinct(s: seq<Line>, t: seq<Line>)
    requires Seqs.IsSubseq(s, t) && IdsDistinct(t)
    ensures IdsDistinct(s)
    decreases |t|
  {
    if s != [] && t != [] {
      if s[0] == t[0] && Seqs.IsSubseq(s[1..], t[1..]) {
        SubseqKeepsIdsDistinct(s[1..], t[1..]);
        SubseqMembers(s[1..], t[1..]);
        forall j | 0 < j < |s| ensures s[0].product.id != s[j].product.id {
          assert s[1..][j - 1] in t[1..];
        }
      } else {
        SubseqKeepsIdsDistinct(s, t[1..]);
      }
    }
  }

  lemma SubseqMembers<T>(s: seq<T>, t: seq<T>)
    requires Seqs.IsSubseq(s, t)
    ensures forall x :: x in s ==> x in t
    decreases |t|
  {
    if s != [] && t != [] {
      if s[0] == t[0] && Seqs.IsSubseq(s[1..], t[1..]) {
        SubseqMembers(s[1..], t[1..]);
        assert s == [s[0]] + s[1..];
      } else {
        SubseqMembers(s, t[1..]);
      }
    }
  }

  /** Every line counts at least once in the item total when quantities are
      positive, and the price total is never negative for non-negative prices. */
  lemma {:induction false} TotalsBounds(cart: seq<Line>)
    ensures (forall i :: 0 <= i < |cart| ==> cart[i].quantity >= 1) ==> TotalItems(cart) >= |cart|
    ensures (forall i :: 0 <= i < |cart| ==> cart[i].product.price >= 0 && cart[i].quantity >= 0)
      ==> TotalPrice(cart) >= 0
  {
    if cart != [] {
      TotalsBounds(cart[..|cart| - 1]);
    }
  }

  /** The totals of a concatenation are the sums of the totals. */
  lemma {:induction false} TotalsAppend(a: seq<Line>, b: seq<Line>)
    ensures TotalItems(a + b) == TotalItems(a) + TotalItems(b)
    ensures TotalPrice(a + b) == TotalPrice(a) + TotalPrice(b)
    decreases |b|
  {
    if b == [] {
      assert a + b == a;
    } else {
      var b' := b[..|b| - 1];
      assert (a + b)[..|a + b| - 1] == a + b';
      TotalsAppend(a, b');
    }
  }

  /** Rewriting the quantity of one line changes the totals by that line's difference alone. */
  lemma {:induction false} TotalsOfOneLineChange(a: seq<Line>, b: seq<Line>, k: nat)
    requires |a| == |b| && k < |a|
    requires forall i :: 0 <= i < |a| && i != k ==> a[i] == b[i]
    requires a[k].product == b[k].product
    ensures TotalItems(b) == TotalItems(a) - a[k].quantity + b[k].quantity
    ensures TotalPrice(b) == TotalPrice(a) - Subtotal(a[k]) + Subtotal(b[k])
    decreases |a|
  {
    var n := |a| - 1;
    assert TotalItems(a) == TotalItems(a[..n]) + a[n].quantity;
    assert TotalItems(b) == TotalItems(b[..n]) + b[n].quantity;
    assert TotalPrice(a) == TotalPrice(a[..n]) + Subtotal(a[n]);
    assert TotalPrice(b) == TotalPrice(b[..n]) + Subtotal(b[n]);
    if k == n {
      assert a[..n] == b[..n];
    } else {
      TotalsOfOneLineChange(a[..n], b[..n], k);
    }
  }

  /** With distinct ids, removing a present id deletes exactly its line. */
  lemma RemoveDeletesOneLine(cart: seq<Line>, k: nat)
    requires IdsDistinct(cart) && k < |cart|
    ensures RemoveFromCart(cart, cart[k].product.id) == cart[..k] + cart[k + 1..]
  {
    var id := cart[k].product.id;
    var keep := (l: Line) => l.product.id != id;
    var front, back := cart[..k], cart[k + 1..];
    assert cart == front + ([cart[k]] + back);
    Seqs.FilterAppend(front, [cart[k]] + back, keep);
    Seqs.FilterAppend([cart[k]], back, keep);
    assert forall i :: 0 <= i < |front| ==> front[i] == cart[i];
    Seqs.FilterKeepsAll(front, keep);
    assert forall i :: 0 <= i < |back| ==> back[i] == cart[k + 1 + i];
    Seqs.FilterKeepsAll(back, keep);
    assert Seqs.Filter([cart[k]], keep) == [];
  }

  /** With distinct ids, removing a present id takes its line's quantity and
      subtotal off the totals. */
  lemma RemoveTotals(cart: seq<Line>, k: nat)
    requires IdsDistinct(cart) && k < |cart|
    ensures TotalItems(RemoveFromCart(cart, cart[k].product.id)) == TotalItems(cart) - cart[k].quantity
    ensures TotalPrice(RemoveFromCart(cart, cart[k].product.id)) == TotalPrice(cart) - Subtotal(cart[k])
  {
    RemoveDeletesOneLine(cart, k);
    TotalsDeleteAt(cart, k);
  }

  /** Deleting the line at `k` takes its quantity and subtotal off the totals. */
  lemma {:induction false} TotalsDeleteAt(cart: seq<Line>, k: nat)
    requires k < |cart|
    ensures TotalItems(cart[..k] + cart[k + 1..]) == TotalItems(cart) - cart[k].quantity
    ensures TotalPrice(cart[..k] + cart[k + 1..]) == TotalPrice(cart) - Subtotal(cart[k])
    decreases |cart|
  {
    var n := |cart| - 1;
    var d := cart[..k] + cart[k + 1..];
    assert TotalItems(cart) == TotalItems(cart[..n]) + cart[n].quantity;
    assert TotalPrice(cart) == TotalPrice(cart[..n]) + Subtotal(cart[n]);
    if k == n {
      assert d == cart[..n];
    } else {
      assert TotalItems(d) == TotalItems(d[..|d| - 1]) + d[|d| - 1].quantity;
      assert TotalPrice(d) == TotalPrice(d[..|d| - 1]) + Subtotal(d[|d| - 1]);
      var init := cart[..n];
      assert init[..k] == cart[..k];
      assert init[k + 1..] == cart[k + 1..n];
      assert cart[k + 1..] == cart[k + 1..n] + [cart[n]];
      assert d == (init[..k] + init[k + 1..]) + [cart[n]];
      assert d[..|d| - 1] == init[..k] + init[k + 1..];
      assert d[|d| - 1] == cart[n];
      TotalsDeleteAt(init, k);
    }
  }

  /** Adding a product that is not in the cart raises the totals by one unit of it. */
  lemma AddNewTotals(cart: seq<Line>, p: Product)
    requires !InCart(cart, p.id)
    ensures TotalItems(AddToCart(cart, p)) == TotalItems(cart) + 1
    ensures TotalPrice(AddToCart(cart, p)) == TotalPrice(cart) + p.price
  {
    assert (cart + [Line(p, 1)])[..|cart|] == cart;
  }

  /** Adding a product already in the cart (one line per id) puts the clamped
      quantity `min(q + 1, p.stock)` in place of the old one: the totals rise by
      one unit while the line is below `p.stock`, stay put at it, and fall when
      the line already holds more than `p.stock`. */
  lemma AddExistingTotals(cart: seq<Line>, k: nat, p: Product)
    requires IdsDistinct(cart) && k < |cart| && cart[k].product.id == p.id
    ensures var q := Min(cart[k].quantity + 1, p.stock);
      TotalItems(AddToCart(cart, p)) == TotalItems(cart) - cart[k].quantity + q
      && TotalPrice(AddToCart(cart, p)) == TotalPrice(cart) - Subtotal(cart[k]) + Subtotal(Line(cart[k].product, q))
  {
    var r := AddToCart(cart, p);
    assert InCart(cart, p.id);
    TotalsOfOneLineChange(cart, r, k);
  }

  /** Setting the quantity of a line (one line per id) changes the totals by
      the clamped new quantity in place of the old one. */
  lemma UpdateTotals(cart: seq<Line>, k: nat, n: int)
    requires IdsDistinct(cart) && k < |cart| && n >= 1
    ensures var q := Min(n, cart[k].product.stock);
      TotalItems(UpdateQuantity(cart, cart[k].product.id, n)) == TotalItems(cart) - cart[k].quantity + q
      && TotalPrice(UpdateQuantity(cart, cart[k].product.id, n))
         == TotalPrice(cart) - Subtotal(cart[k]) + Subtotal(Line(cart[k].product, q))
  {
    TotalsOfOneLineChange(cart, UpdateQuantity(cart, cart[k].product.id, n), k);
  }

  /** Adding a new product twice leaves one line for it, with quantity min(2, stock). */
  lemma AddTwice(cart: seq<Line>, p: Product)
    requires !InCart(cart, p.id)
    ensures AddToCart(AddToCart(cart, p), p) == cart + [Line(p, Min(2, p.stock))]
  {
    var once := AddToCart(cart, p);
    assert InCart(once, p.id);
    var twice := AddToCart(once, p);
    assert |twice| == |cart| + 1;
    forall i | 0 <= i < |cart| + 1 ensures twice[i] == (cart + [Line(p, Min(2, p.stock))])[i] {
      if i < |cart| {
        assert cart[i].product.id != p.id;
      }
    }
  }

  /** `addToCart` keeps the ledger invariant when the product can be bought
      (stock at least 1) and the cart holds the same catalog snapshot of it. */
  lemma AddPreservesValid(cart: seq<Line>, p: Product)
    requires Valid(cart) && p.stock >= 1
    requires forall i :: 0 <= i < |cart| && cart[i].product.id == p.id ==> cart[i].product == p
    ensures Valid(AddToCart(cart, p))
  {
    var r := AddToCart(cart, p);
    if !InCart(cart, p.id) {
      assert forall i :: 0 <= i < |cart| ==> r[i] == cart[i];
    }
  }

  /** The exact condition: from a valid cart, `addToCart` keeps the invariant
      if and only if the product has stock and no full line with its id holds a
      snapshot whose stock is below the product's, since the clamp uses the
      stock of the product passed in. */
  lemma AddKeepsValidIff(cart: seq<Line>, p: Product)
    requires Valid(cart)
    ensures Valid(AddToCart(cart, p)) <==>
      (p.stock >= 1
       && forall i :: 0 <= i < |cart| && cart[i].product.id == p.id ==>
            cart[i].quantity < cart[i].product.stock || p.stock <= cart[i].product.stock)
  {
    var r := AddToCart(cart, p);
    if !InCart(cart, p.id) {
      assert r[|cart|] == Line(p, 1);
      assert forall i :: 0 <= i < |cart| ==> r[i] == cart[i];
    } else {
      var k :| 0 <= k < |cart| && cart[k].product.id == p.id;
      if Valid(r) {
        assert 1 <= r[k].quantity == Min(cart[k].quantity + 1, p.stock);
      }
    }
  }

  /** In the shipped app every line holds a catalog product, so every
      `addToCart` from the catalog keeps the ledger invariant. */
  lemma CatalogAddKeepsValid(cart: seq<Line>, k: nat)
    requires k < |PRODUCTS| && Valid(cart)
    requires forall i :: 0 <= i < |cart| ==> cart[i].product in PRODUCTS
    ensures Valid(AddToCart(cart, PRODUCTS[k]))
  {
    CatalogWellFormed();
    AddPreservesValid(cart, PRODUCTS[k]);
  }

  /** A product with no stock breaks the invariant when added to an empty
      cart: the new line gets quantity 1, above the stock. */
  lemma AddOutOfStockNewLine(p: Product)
    requires p.stock == 0
    ensures AddToCart([], p) == [Line(p, 1)]
    ensures !Valid(AddToCart([], p))
  {
    assert !InCart([], p.id);
  }

  /** Adding a product with no stock to a valid line with its id clamps that
      line to `min(1 + 1, 0) == 0`, and the line is kept rather than removed,
      whatever stock the line's snapshot holds. */
  lemma AddOutOfStockExistingLine(q: Product, p: Product)
    requires q.id == p.id && q.stock >= 1 && p.stock == 0
    ensures Valid([Line(q, 1)])
    ensures AddToCart([Line(q, 1)], p) == [Line(q, 0)]
    ensures !Valid(AddToCart([Line(q, 1)], p))
  {
    assert InCart([Line(q, 1)], p.id) by { assert [Line(q, 1)][0].product.id == p.id; }
  }

  /** A line whose snapshot has less stock than the product being added is
      clamped with the larger stock, so a full line is pushed past its own stock. */
  lemma AddStaleSnapshotBreaksValid(q: Product, p: Product)
    requires q.id == p.id && 1 <= q.stock < p.stock
    ensures Valid([Line(q, q.stock)])
    ensures AddToCart([Line(q, q.stock)], p) == [Line(q, q.stock + 1)]
    ensures !Valid(AddToCart([Line(q, q.stock)], p))
  {
    assert InCart([Line(q, q.stock)], p.id) by { assert [Line(q, q.stock)][0].product.id == p.id; }
  }

  lemma RemovePreservesValid(cart: seq<Line>, id: int)
    requires Valid(cart)
    ensures Valid(RemoveFromCart(cart, id))
  {
    var r := RemoveFromCart(cart, id);
    forall i | 0 <= i < |r| ensures 1 <= r[i].quantity <= r[i].product.stock {
      assert multiset(r)[r[i]] > 0;
      assert r[i] in cart;
    }
  }

  lemma UpdatePreservesValid(cart: seq<Line>, id: int, n: int)
    requires Valid(cart)
    ensures Valid(UpdateQuantity(cart, id, n))
  {
    if n < 1 {
      RemovePreservesValid(cart, id);
    }
  }

  /** On a valid ledger the item count is zero exactly when the cart is empty. */
  lemma NoItemsIffEmpty(cart: seq<Line>)
    requires Valid(cart)
    ensures TotalItems(cart) == 0 <==> cart == []
  {
    TotalsBounds(cart);
  }
}
