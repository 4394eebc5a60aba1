/**
 * The cart: one line per product, quantities clamped against the stock
 * ledger, totals as sums over the lines.
 */
module Cart {
  import opened Wrappers
  import Seqs
  import Catalog
  import Inventory

  datatype CartItem = CartItem(product: Catalog.Product, quantity: int)

  type Cart = seq<CartItem>

  /** The invariant the cart's operations keep: each product id on at most one line. */
  ghost predicate UniqueLines(cart: Cart) {
    forall i, j :: 0 <= i < j < |cart| ==> cart[i].product.id != cart[j].product.id
  }

  predicate HasLine(cart: Cart, id: string) {
    exists i :: 0 <= i < |cart| && cart[i].product.id == id
  }

  function LineIndex(cart: Cart, id: string): (r: int)
    ensures -1 <= r < |cart|
    ensures r >= 0 ==> cart[r].product.id == id
    ensures r == -1 <==> !HasLine(cart, id)
  {
    Seqs.FirstIndex(cart, (l: CartItem) => l.product.id == id)
  }

  /** `existingItem?.quantity || 0`: the quantity already in the cart for `id`. */
  function CurrentQuantity(cart: Cart, id: string): int {
    var i := LineIndex(cart, id);
    if i < 0 then 0 else cart[i].quantity
  }

  /**
   * The quantity `addItem` goes on to add: the request when the ledger covers
   * existing + requested; otherwise `max(0, stock - existing)`, where None
   * stands for the early return when that is 0.
   */
  function Admitted(cart: Cart, ledger: Inventory.Ledger, product: Catalog.Product, quantity: int): (r: Option<int>)
  {
    var current := CurrentQuantity(cart, product.id);
    var stock := Inventory.GetStock(ledger, product.id);
    if current + quantity <= stock then Some(quantity)
    else if stock - current <= 0 then None
    else Some(stock - current)
  }

  /** `addItem(product, quantity = 1)`. */
  function AddItem(cart: Cart, ledger: Inventory.Ledger, product: Catalog.Product, quantity: int := 1): (r: Cart)
    ensures Admitted(cart, ledger, product, quantity).None? ==> r == cart
    ensures Admitted(cart, ledger, product, quantity).Some? && !HasLine(cart, product.id) ==>
              r == cart + [CartItem(product, Admitted(cart, ledger, product, quantity).value)]
    ensures Admitted(cart, ledger, product, quantity).Some? && HasLine(cart, product.id) ==>
              |r| == |cart| && forall j :: 0 <= j < |cart| ==>
                r[j] == if cart[j].product.id == product.id
                        then cart[j].(quantity := cart[j].quantity + Admitted(cart, ledger, product, quantity).value)
                        else cart[j]
  {
    match Admitted(cart, ledger, product, quantity)
    case None => cart
    case Some(q) =>
      if HasLine(cart, product.id) then
        Seqs.UpdateWhere(cart, (l: CartItem) => l.product.id == product.id,
                         (l: CartItem) => l.(quantity := l.quantity + q))
      else cart + [CartItem(product, q)]
  }

  /** `removeItem`: drops every line for `id`. */
  function RemoveItem(cart: Cart, id: string): (r: Cart)
    ensures !HasLine(r, id)
    ensures |r| <= |cart|
  {
    Seqs.Filter(cart, (l: CartItem) => l.product.id != id)
  }

  /** The quantity `updateQuantity` writes for a positive request: `max(1, stock)` when stock falls short. */
  function ClampedQuantity(ledger: Inventory.Ledger, id: string, quantity: int): int {
    if Inventory.IsInStock(ledger, id, quantity) then quantity
    else
      var stock := Inventory.GetStock(ledger, id);
      if stock > 1 then stock else 1
  }

  /** `updateQuantity`: a non-positive quantity removes the line; otherwise sets it, clamped. */
  function UpdateQuantity(cart: Cart, ledger: Inventory.Ledger, id: string, quantity: int): (r: Cart)
    ensures quantity <= 0 ==> !HasLine(r, id)
    ensures quantity > 0 ==> |r| == |cart|
  {
    if quantity <= 0 then RemoveItem(cart, id)
    else
      var q := ClampedQuantity(ledger, id, quantity);
      Seqs.UpdateWhere(cart, (l: CartItem) => l.product.id == id, (l: CartItem) => l.(quantity := q))
  }

  /** `clearCart`. */
  function ClearCart(cart: Cart): (r: Cart)
    ensures TotalItems(r) == 0 && TotalPrice(r) == 0
  {
    []
  }

  /** `getTotalItems`: the sum of the quantities. */
  function TotalItems(cart: Cart): (r: int)
    ensures (forall i :: 0 <= i < |cart| ==> cart[i].quantity >= 0) ==> r >= 0
  {
    var m := (l: CartItem) => l.quantity;
    if forall i :: 0 <= i < |cart| ==> cart[i].quantity >= 0 then
      Seqs.SumNonNegative(cart, m);
      Seqs.Sum(cart, m)
    else Seqs.Sum(cart, m)
  }

  /** `getTotalPrice`: the sum of price times quantity, in won. */
  function TotalPrice(cart: Cart): (r: int)
    ensures (forall i :: 0 <= i < |cart| ==> cart[i].product.price >= 0 && cart[i].quantity >= 0) ==> r >= 0
  {
    var m := (l: CartItem) => l.product.price * l.quantity;
    if forall i :: 0 <= i < |cart| ==> cart[i].product.price >= 0 && cart[i].quantity >= 0 then
      Seqs.SumNonNegative(cart, m);
      Seqs.Sum(cart, m)
    else Seqs.Sum(cart, m)
  }

  // ---------------------------------------------------------------- lemmas

  lemma LineIndexUnique(cart: Cart, id: string, i: int)
    requires UniqueLines(cart)
    requires 0 <= i < |cart| && cart[i].product.id == id
    ensures LineIndex(cart, id) == i
    ensures CurrentQuantity(cart, id) == cart[i].quantity
  {
  }

  /** The quantity held for `id` is read past a first line for another product. */
  lemma CurrentQuantityTail(cart: Cart, id: string)
    requires cart != [] && cart[0].product.id != id
    ensures CurrentQuantity(cart, id) == CurrentQuantity(cart[1..], id)
  {
    var t := cart[1..];
    var k := LineIndex(t, id);
    if k >= 0 {
      assert cart[k + 1] == t[k];
      assert forall j :: 0 <= j < k + 1 ==> cart[j].product.id != id by {
        forall j | 0 <= j < k + 1 ensures cart[j].product.id != id {
          if j > 0 { assert cart[j] == t[j - 1]; }
        }
      }
    } else {
      assert forall j :: 0 <= j < |cart| ==> cart[j].product.id != id by {
        forall j | 0 <= j < |cart| ensures cart[j].product.id != id {
          if j > 0 { assert cart[j] == t[j - 1]; }
        }
      }
    }
  }

  /** Dropping the first line keeps one line per product, and that product has no later line. */
  lemma TailLines(cart: Cart)
    requires cart != [] && UniqueLines(cart)
    ensures UniqueLines(cart[1..])
    ensures !HasLine(cart[1..], cart[0].product.id)
  {
    var tail := cart[1..];
    forall i, j | 0 <= i < j < |tail| ensures tail[i].product.id != tail[j].product.id {
      assert tail[i] == cart[i + 1] && tail[j] == cart[j + 1];
    }
    forall i | 0 <= i < |tail| ensures tail[i].product.id != cart[0].product.id {
      assert tail[i] == cart[i + 1];
    }
  }

  /** `addItem` keeps one line per product. */
  lemma AddKeepsLinesUnique(cart: Cart, ledger: Inventory.Ledger, product: Catalog.Product, quantity: int)
    requires UniqueLines(cart)
    ensures UniqueLines(AddItem(cart, ledger, product, quantity))
  {
    var r := AddItem(cart, ledger, product, quantity);
    var a := Admitted(cart, ledger, product, quantity);
    if a.Some? && HasLine(cart, product.id) {
      assert forall j :: 0 <= j < |cart| ==> r[j].product.id == cart[j].product.id;
    } else if a.Some? {
      assert r == cart + [CartItem(product, a.value)];
      assert forall j :: 0 <= j < |cart| ==> r[j] == cart[j] && cart[j].product.id != product.id;
    }
  }

  /**
   * After `addItem`, the product's line holds no more than the larger of what it
   * held before (0 when absent) and the available stock; and when the request
   * overshoots the stock, it holds exactly that larger value.
   */
  lemma AddRespectsStock(cart: Cart, ledger: Inventory.Ledger, product: Catalog.Product, quantity: int)
    requires UniqueLines(cart)
    ensures var r := AddItem(cart, ledger, product, quantity);
            var before := CurrentQuantity(cart, product.id);
            var stock := Inventory.GetStock(ledger, product.id);
            var after := CurrentQuantity(r, product.id);
            && after <= (if before > stock then before else stock)
            && (before + quantity > stock ==>
                  (after == (if before > stock then before else stock)
                   || (!HasLine(cart, product.id) && !HasLine(r, product.id))))
  {
    var r := AddItem(cart, ledger, product, quantity);
    AddKeepsLinesUnique(cart, ledger, product, quantity);
    if HasLine(cart, product.id) {
      var i := LineIndex(cart, product.id);
      LineIndexUnique(cart, product.id, i);
      assert r[i].product.id == product.id;
      LineIndexUnique(r, product.id, i);
    } else if Admitted(cart, ledger, product, quantity).Some? {
      assert r[|cart|].product.id == product.id;
      LineIndexUnique(r, product.id, |cart|);
    }
  }

  /** `addItem` raises the item count by exactly the admitted quantity. */
  lemma AddRaisesTotalItems(cart: Cart, ledger: Inventory.Ledger, product: Catalog.Product, quantity: int)
    requires UniqueLines(cart)
    ensures TotalItems(AddItem(cart, ledger, product, quantity))
         == TotalItems(cart) + Admitted(cart, ledger, product, quantity).GetOr(0)
  {
    var r := AddItem(cart, ledger, product, quantity);
    var m := (l: CartItem) => l.quantity;
    match Admitted(cart, ledger, product, quantity)
    case None =>
    case Some(q) =>
      if HasLine(cart, product.id) {
        var i := LineIndex(cart, product.id);
        SumReplacingOne(cart, r, i, m);
      } else {
        Seqs.SumAppend(cart, [CartItem(product, q)], m);
      }
  }

  /** Replacing one element changes the sum by the difference at that element. */
  lemma SumReplacingOne(xs: Cart, ys: Cart, i: int, m: CartItem -> int)
    requires 0 <= i < |xs| == |ys|
    requires forall j :: 0 <= j < |xs| && j != i ==> ys[j] == xs[j]
    ensures Seqs.Sum(ys, m) == Seqs.Sum(xs, m) - m(xs[i]) + m(ys[i])
  {
    var pre, post := xs[..i], xs[i + 1..];
    assert xs == pre + [xs[i]] + post;
    assert ys == pre + [ys[i]] + post;
    Seqs.SumAppend(pre + [xs[i]], post, m);
    Seqs.SumAppend(pre, [xs[i]], m);
    Seqs.SumAppend(pre + [ys[i]], post, m);
    Seqs.SumAppend(pre, [ys[i]], m);
  }

  /** With one line per product, `removeItem` cuts out exactly that line and keeps the rest in order. */
  lemma RemoveCutsOneLine(cart: Cart, id: string, i: int)
    requires UniqueLines(cart)
    requires 0 <= i < |cart| && cart[i].product.id == id
    ensures RemoveItem(cart, id) == cart[..i] + cart[i + 1..]
  {
    var keep := (l: CartItem) => l.product.id != id;
    var pre, post := cart[..i], cart[i + 1..];
    assert cart == pre + [cart[i]] + post;
    assert forall k :: 0 <= k < |pre| ==> keep(pre[k]) by {
      forall k | 0 <= k < |pre| ensures keep(pre[k]) {
        assert pre[k] == cart[k];
      }
    }
    assert forall k :: 0 <= k < |post| ==> keep(post[k]) by {
      forall k | 0 <= k < |post| ensures keep(post[k]) {
        assert post[k] == cart[i + 1 + k];
      }
    }
    Seqs.FilterDropsOne(pre, cart[i], post, keep);
  }

  /** Removing or updating a product that has no line changes nothing. */
  lemma AbsentProductUnchanged(cart: Cart, ledger: Inventory.Ledger, id: string, quantity: int)
    requires !HasLine(cart, id)
    ensures RemoveItem(cart, id) == cart
    ensures UpdateQuantity(cart, ledger, id, quantity) == cart
  {
    Seqs.FilterAll(cart, (l: CartItem) => l.product.id != id);
  }

  /**
   * A positive `updateQuantity` on a present line sets it to the request when
   * the stock covers it, and to `max(1, stock)` otherwise — 1 for a sold-out
   * product; every other line is unchanged.
   */
  lemma UpdateSetsClampedQuantity(cart: Cart, ledger: Inventory.Ledger, id: string, quantity: int, i: int)
    requires UniqueLines(cart)
    requires 0 <= i < |cart| && cart[i].product.id == id
    requires quantity > 0
    ensures var r := UpdateQuantity(cart, ledger, id, quantity);
            var stock := Inventory.GetStock(ledger, id);
            && r[i].quantity == (if quantity <= stock then quantity else if stock > 1 then stock else 1)
            && r[i].quantity >= 1
            && r[i].product == cart[i].product
            && (forall j :: 0 <= j < |cart| && j != i ==> r[j] == cart[j])
            && UniqueLines(r)
  {
    var r := UpdateQuantity(cart, ledger, id, quantity);
    assert forall j :: 0 <= j < |cart| ==> r[j].product == cart[j].product;
  }

  /** Once cleared, the cart counts no items and costs nothing. */
  lemma ClearEmpties(cart: Cart)
    ensures ClearCart(cart) == [] && TotalItems(ClearCart(cart)) == 0 && TotalPrice(ClearCart(cart)) == 0
  {
  }

  /**
   * Adding 2 units of a 1000-won product with 5 in stock, then updating to 5,
   * costs 5000 won; updating to 99 instead clamps the line to 5.
   */
  lemma AddThenUpdateExample(ledger: Inventory.Ledger, a: Catalog.Product)
    requires a.price == 1000 && Inventory.GetStock(ledger, a.id) == 5
    ensures TotalPrice(UpdateQuantity(AddItem([], ledger, a, 2), ledger, a.id, 5)) == 5000
    ensures UpdateQuantity(AddItem([], ledger, a, 2), ledger, a.id, 99) == [CartItem(a, 5)]
  {
    var c := AddItem([], ledger, a, 2);
    assert c == [CartItem(a, 2)];
    var u := UpdateQuantity(c, ledger, a.id, 5);
    assert u == [CartItem(a, 5)];
    assert TotalPrice(u) == 1000 * 5 + TotalPrice([]);
  }
}
