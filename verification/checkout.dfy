/**
 * The checkout page's payment handler: the checks made before the payment
 * window opens, the request sent to the payment gateway, and what the
 * gateway's callback does to the stock ledger, the order history and the cart.
 */
module Checkout {
  import opened Wrappers
  import Seqs
  import Text
  import Catalog
  import Inventory
  import Cart
  import Orders

  /**
   * The fields of the gateway request that the shop computes. The fixed `pg`,
   * `pay_method` and redirect are left out, and so is `custom_data`, the JSON
   * copy of the lines and the shipping message that nothing in the shop reads back.
   */
  datatype PaymentRequest = PaymentRequest(
    merchantUid: string,
    name: string,
    amount: int,
    buyerEmail: string,
    buyerName: string,
    buyerTel: string,
    buyerAddr: string,
    buyerPostcode: string)

  /** Why `handlePayment` stops before the payment window opens. */
  datatype Refusal =
    | GatewayScriptLoading            // the gateway script has not finished loading
    | ShippingIncomplete              // name, phone or address is empty
    | OutOfStock(product: Catalog.Product)  // the first line the ledger cannot cover
    | GatewayMissing                  // the script loaded but `window.IMP` is absent
    | EmptyCart                       // `items[0]` is read from an empty cart and throws

  datatype Start = Refused(why: Refusal) | Requested(request: PaymentRequest)

  /** The gateway's answer; the ids are only meaningful on success. */
  datatype PaymentResponse = PaymentResponse(success: bool, impUid: string, merchantUid: string, errorMsg: string)

  /** The three client stores the callback writes. */
  datatype Shop = Shop(cart: Cart.Cart, ledger: Inventory.Ledger, orders: Orders.History)

  /**
   * The callback's effect: the new stores, whether some stock decrement was
   * refused (the customer is then told to contact support, but the order
   * stands), and the gateway's error message on failure.
   */
  datatype Completion = Completion(shop: Shop, stockFailed: bool, failure: Option<string>)

  /** Name, phone and address must be non-empty; email, postcode, detail and message may be empty. */
  predicate ShippingComplete(s: Orders.ShippingInfo) {
    s.name != [] && s.phone != [] && s.address != []
  }

  /** The first cart line whose quantity the ledger cannot cover. */
  function StockShortfall(cart: Cart.Cart, ledger: Inventory.Ledger): (r: Option<Catalog.Product>)
    ensures r.None? <==> forall i :: 0 <= i < |cart| ==> Inventory.IsInStock(ledger, cart[i].product.id, cart[i].quantity)
    ensures r.Some? ==> exists i :: 0 <= i < |cart| && cart[i].product == r.value
                          && !Inventory.IsInStock(ledger, cart[i].product.id, cart[i].quantity)
                          && forall j :: 0 <= j < i ==> Inventory.IsInStock(ledger, cart[j].product.id, cart[j].quantity)
  {
    var i := Seqs.FirstIndex(cart, (l: Cart.CartItem) => !Inventory.IsInStock(ledger, l.product.id, l.quantity));
    if i < 0 then None else Some(cart[i].product)
  }

  /** The order name: the first product's Korean name, plus "외 N건" ("and N more") for N further lines. */
  function OrderName(cart: Cart.Cart): (r: string)
    requires cart != []
    ensures |cart| == 1 ==> r == cart[0].product.koreanName
    ensures |cart| > 1 ==> r == cart[0].product.koreanName + " 외 " + Text.IntToString(|cart| - 1) + "건"
  {
    if |cart| > 1 then cart[0].product.koreanName + " 외 " + Text.IntToString(|cart| - 1) + "건"
    else cart[0].product.koreanName
  }

  /** `order_` followed by the decimal clock reading in ms. */
  function MerchantUid(now: int): (r: string)
    ensures |r| > 6 && r[..6] == "order_"
    ensures Text.ParseInt(r[6..]) == Some(now)
  {
    var r := "order_" + Text.IntToString(now);
    Text.ParseIntOfIntToString(now);
    assert r[6..] == Text.IntToString(now);
    r
  }

  /**
   * `handlePayment` up to `IMP.request_pay`: `loaded` is the script-loaded flag,
   * `gatewayPresent` whether `window.IMP` exists, `now` the clock in ms.
   */
  function BeginPayment(loaded: bool, gatewayPresent: bool, shipping: Orders.ShippingInfo,
                        cart: Cart.Cart, ledger: Inventory.Ledger, now: int): (r: Start)
    ensures r.Requested? <==>
              loaded && ShippingComplete(shipping) && gatewayPresent && cart != []
              && forall i :: 0 <= i < |cart| ==> Inventory.IsInStock(ledger, cart[i].product.id, cart[i].quantity)
    ensures !loaded ==> r == Refused(GatewayScriptLoading)
    ensures loaded && !ShippingComplete(shipping) ==> r == Refused(ShippingIncomplete)
    ensures r.Refused? && r.why.OutOfStock? ==> loaded && ShippingComplete(shipping) && r.why.product in Products(cart)
    ensures loaded && ShippingComplete(shipping) && StockShortfall(cart, ledger).Some? ==>
              r == Refused(OutOfStock(StockShortfall(cart, ledger).value))
    ensures r == Refused(GatewayMissing) <==>
              loaded && ShippingComplete(shipping) && StockShortfall(cart, ledger).None? && !gatewayPresent
    ensures r == Refused(EmptyCart) <==>
              loaded && ShippingComplete(shipping) && gatewayPresent && cart == []
    ensures r.Requested? ==>
              && r.request.amount == Cart.TotalPrice(cart)
              && r.request.merchantUid == MerchantUid(now)
              && r.request.name == OrderName(cart)
              && r.request.buyerAddr == shipping.address + " " + shipping.addressDetail
  {
    if !loaded then Refused(GatewayScriptLoading)
    else if !ShippingComplete(shipping) then Refused(ShippingIncomplete)
    else match StockShortfall(cart, ledger)
      case Some(p) => Refused(OutOfStock(p))
      case None =>
        if !gatewayPresent then Refused(GatewayMissing)
        else if cart == [] then Refused(EmptyCart)
        else Requested(PaymentRequest(
          MerchantUid(now), OrderName(cart), Cart.TotalPrice(cart),
          shipping.email, shipping.name, shipping.phone,
          shipping.address + " " + shipping.addressDetail, shipping.postcode))
  }

  function Products(cart: Cart.Cart): (r: seq<Catalog.Product>)
    ensures |r| == |cart|
    ensures forall i :: 0 <= i < |cart| ==> r[i] == cart[i].product
  {
    if cart == [] then [] else [cart[0].product] + Products(cart[1..])
  }

  /**
   * The callback's `for` loop: `decreaseStock` for each line in order, each
   * seeing the ledger the previous one left; the flag records any refusal.
   */
  function DecreaseAll(ledger: Inventory.Ledger, cart: Cart.Cart): (r: (Inventory.Ledger, bool))
    ensures |r.0| == |ledger|
    decreases |cart|
  {
    if cart == [] then (ledger, false)
    else
      var step := Inventory.DecreaseStock(ledger, cart[0].product.id, cart[0].quantity);
      var rest := DecreaseAll(step.1, cart[1..]);
      (rest.0, rest.1 || !step.0)
  }

  /** The order the callback records: the whole cart, its undiscounted total, status paid, both times `time`. */
  function PaidOrder(cart: Cart.Cart, shipping: Orders.ShippingInfo, response: PaymentResponse, time: int): Orders.Order {
    Orders.Order(response.merchantUid, response.impUid, cart, shipping, Cart.TotalPrice(cart),
                 Orders.Paid, time, Some(time), None, None)
  }

  /** The `request_pay` callback; `time` is the clock in ms when it runs. */
  function CompletePayment(shop: Shop, shipping: Orders.ShippingInfo, response: PaymentResponse, time: int): (r: Completion)
    ensures !response.success ==> r == Completion(shop, false, Some(response.errorMsg))
    ensures response.success ==> r.failure.None? && r.shop.cart == []
    ensures response.success ==> |r.shop.ledger| == |shop.ledger|
    ensures response.success ==> r.shop.orders == Orders.AddOrder(shop.orders, PaidOrder(shop.cart, shipping, response, time))
  {
    if !response.success then Completion(shop, false, Some(response.errorMsg))
    else
      var dec := DecreaseAll(shop.ledger, shop.cart);
      var orders := Orders.AddOrder(shop.orders, PaidOrder(shop.cart, shipping, response, time));
      Completion(Shop(Cart.ClearCart(shop.cart), dec.0, orders), dec.1, None)
  }

  // ---------------------------------------------------------------- lemmas

  /** Taking the first line's quantity leaves every later line (another product) as covered as before. */
  lemma HeadDecreaseKeepsTailInStock(ledger: Inventory.Ledger, cart: Cart.Cart)
    requires cart != [] && Cart.UniqueLines(cart)
    requires forall i :: 0 <= i < |cart| ==> Inventory.IsInStock(ledger, cart[i].product.id, cart[i].quantity)
    ensures Cart.UniqueLines(cart[1..])
    ensures var after := Inventory.DecreaseStock(ledger, cart[0].product.id, cart[0].quantity).1;
            forall i :: 0 <= i < |cart| - 1 ==> Inventory.IsInStock(after, cart[1..][i].product.id, cart[1..][i].quantity)
  {
    var c := cart[0];
    var tail := cart[1..];
    forall i | 0 <= i < |tail|
      ensures Inventory.IsInStock(Inventory.DecreaseStock(ledger, c.product.id, c.quantity).1, tail[i].product.id, tail[i].quantity)
    {
      assert tail[i] == cart[i + 1];
      Inventory.DecreaseFramesOthers(ledger, c.product.id, c.quantity, tail[i].product.id);
    }
  }

  /**
   * When the cart has one line per product, the ledger one entry per product,
   * and every line was in stock, the callback's decrements all succeed and
   * keep the ledger's entries (and their uniqueness).
   */
  lemma {:induction false} DecreaseAllSucceeds(ledger: Inventory.Ledger, cart: Cart.Cart, p: string)
    requires Cart.UniqueLines(cart) && Inventory.UniqueEntries(ledger)
    requires forall i :: 0 <= i < |cart| ==> Inventory.IsInStock(ledger, cart[i].product.id, cart[i].quantity)
    ensures !DecreaseAll(ledger, cart).1
    ensures Inventory.UniqueEntries(DecreaseAll(ledger, cart).0)
    ensures Inventory.HasEntry(DecreaseAll(ledger, cart).0, p) == Inventory.HasEntry(ledger, p)
    decreases |cart|
  {
    if cart != [] {
      var c := cart[0];
      var step := Inventory.DecreaseStock(ledger, c.product.id, c.quantity);
      Inventory.DecreaseEffect(ledger, c.product.id, c.quantity);
      Inventory.DecreaseKeepsEntries(ledger, c.product.id, c.quantity, p);
      HeadDecreaseKeepsTailInStock(ledger, cart);
      DecreaseAllSucceeds(step.1, cart[1..], p);
    }
  }

  /**
   * Under the same conditions each product's stock falls by exactly its cart
   * quantity — when it has a ledger entry; a product whose stock is read from
   * the catalog has no entry to decrement and keeps its stock.
   */
  lemma {:induction false} DecreaseAllExact(ledger: Inventory.Ledger, cart: Cart.Cart, p: string)
    requires Cart.UniqueLines(cart) && Inventory.UniqueEntries(ledger)
    requires forall i :: 0 <= i < |cart| ==> Inventory.IsInStock(ledger, cart[i].product.id, cart[i].quantity)
    ensures Inventory.GetStock(DecreaseAll(ledger, cart).0, p)
         == Inventory.GetStock(ledger, p) - (if Inventory.HasEntry(ledger, p) then Cart.CurrentQuantity(cart, p) else 0)
    decreases |cart|
  {
    if cart != [] {
      var c := cart[0];
      var tail := cart[1..];
      var step := Inventory.DecreaseStock(ledger, c.product.id, c.quantity);
      Inventory.DecreaseEffect(ledger, c.product.id, c.quantity);
      Inventory.DecreaseKeepsEntries(ledger, c.product.id, c.quantity, p);
      HeadDecreaseKeepsTailInStock(ledger, cart);
      DecreaseAllExact(step.1, tail, p);
      assert DecreaseAll(ledger, cart).0 == DecreaseAll(step.1, tail).0;
      if p == c.product.id {
        Cart.LineIndexUnique(cart, p, 0);
        assert !Cart.HasLine(tail, p) by {
          forall i | 0 <= i < |tail| ensures tail[i].product.id != p {
            assert tail[i] == cart[i + 1];
          }
        }
      } else {
        Cart.CurrentQuantityTail(cart, p);
        Inventory.DecreaseFramesOthers(ledger, c.product.id, c.quantity, p);
      }
    }
  }

  /**
   * The loop on any cart with one line per product: a refused line does not
   * stop the later ones, and the flag is raised exactly when some line was
   * short against the starting ledger.
   */
  lemma {:induction false} DecreaseAllFlag(ledger: Inventory.Ledger, cart: Cart.Cart)
    requires Cart.UniqueLines(cart)
    ensures DecreaseAll(ledger, cart).1
        <==> exists i :: 0 <= i < |cart| && !Inventory.IsInStock(ledger, cart[i].product.id, cart[i].quantity)
    decreases |cart|
  {
    if cart != [] {
      var c := cart[0];
      var tail := cart[1..];
      var step := Inventory.DecreaseStock(ledger, c.product.id, c.quantity);
      Cart.TailLines(cart);
      DecreaseAllFlag(step.1, tail);
      // The later lines are other products, so the head's decrease leaves their reads alone.
      forall i | 0 <= i < |tail|
        ensures Inventory.GetStock(step.1, tail[i].product.id) == Inventory.GetStock(ledger, tail[i].product.id)
      {
        assert tail[i] == cart[i + 1];
        Inventory.DecreaseFramesOthers(ledger, c.product.id, c.quantity, tail[i].product.id);
      }
      if DecreaseAll(ledger, cart).1 && step.0 {
        var k :| 0 <= k < |tail| && !Inventory.IsInStock(step.1, tail[k].product.id, tail[k].quantity);
        assert cart[k + 1] == tail[k];
      }
      if !DecreaseAll(ledger, cart).1 {
        forall i | 0 <= i < |cart| ensures Inventory.IsInStock(ledger, cart[i].product.id, cart[i].quantity) {
          if i > 0 {
            assert cart[i] == tail[i - 1];
          }
        }
      }
    }
  }

  /** Whatever the lines, the loop keeps the ledger's entries and one entry per product. */
  lemma {:induction false} DecreaseAllKeepsEntries(ledger: Inventory.Ledger, cart: Cart.Cart, p: string)
    requires Inventory.UniqueEntries(ledger)
    ensures Inventory.UniqueEntries(DecreaseAll(ledger, cart).0)
    ensures Inventory.HasEntry(DecreaseAll(ledger, cart).0, p) == Inventory.HasEntry(ledger, p)
    decreases |cart|
  {
    if cart != [] {
      var c := cart[0];
      var step := Inventory.DecreaseStock(ledger, c.product.id, c.quantity);
      Inventory.DecreaseRead(ledger, c.product.id, c.quantity);
      Inventory.DecreaseKeepsEntries(ledger, c.product.id, c.quantity, p);
      DecreaseAllKeepsEntries(step.1, cart[1..], p);
    }
  }

  /**
   * Whatever the other lines do, each product ends where its own
   * `decreaseStock` against the starting ledger would leave it: lowered by its
   * cart quantity when that was covered and it has an entry, untouched
   * otherwise. A product without a line asks for 0 and so keeps its stock.
   */
  lemma {:induction false} DecreaseAllPerLine(ledger: Inventory.Ledger, cart: Cart.Cart, p: string)
    requires Cart.UniqueLines(cart) && Inventory.UniqueEntries(ledger)
    ensures Inventory.GetStock(DecreaseAll(ledger, cart).0, p)
         == Inventory.GetStock(Inventory.DecreaseStock(ledger, p, Cart.CurrentQuantity(cart, p)).1, p)
    decreases |cart|
  {
    if cart == [] {
      Inventory.DecreaseRead(ledger, p, 0);
    } else {
      var c := cart[0];
      var tail := cart[1..];
      var step := Inventory.DecreaseStock(ledger, c.product.id, c.quantity);
      Inventory.DecreaseRead(ledger, c.product.id, c.quantity);
      Cart.TailLines(cart);
      DecreaseAllPerLine(step.1, tail, p);
      assert DecreaseAll(ledger, cart).0 == DecreaseAll(step.1, tail).0;
      if p == c.product.id {
        Cart.LineIndexUnique(cart, p, 0);
        Inventory.DecreaseRead(step.1, p, 0);
      } else {
        Inventory.DecreaseFramesOthers(ledger, c.product.id, c.quantity, p);
        Inventory.DecreaseKeepsEntries(ledger, c.product.id, c.quantity, p);
        Cart.CurrentQuantityTail(cart, p);
        Inventory.DecreaseReadAgrees(step.1, ledger, p, Cart.CurrentQuantity(cart, p));
      }
    }
  }

  /** A refused or failed payment leaves the cart, the ledger and the orders exactly as they were. */
  lemma FailedPaymentChangesNothing(shop: Shop, shipping: Orders.ShippingInfo, response: PaymentResponse, time: int)
    requires !response.success
    ensures CompletePayment(shop, shipping, response, time).shop == shop
  {
  }

  /**
   * After a successful payment the history's lookup by the gateway's merchant
   * uid finds a paid order holding the whole cart at its undiscounted total
   * (a coupon applied on the cart page is not charged for), and the cart is empty.
   */
  lemma PaidOrderRecorded(shop: Shop, shipping: Orders.ShippingInfo, response: PaymentResponse, time: int)
    requires response.success
    ensures var r := CompletePayment(shop, shipping, response, time);
            && r.shop.cart == []
            && Orders.GetOrder(r.shop.orders, response.merchantUid).Some?
            && var o := Orders.GetOrder(r.shop.orders, response.merchantUid).value;
               o.items == shop.cart && o.totalAmount == Cart.TotalPrice(shop.cart)
               && o.status == Orders.Paid && o.createdAt == time && o.paidAt == Some(time)
               && o.shipping == shipping && o.impUid == response.impUid
  {
    Orders.AddThenGet(shop.orders, PaidOrder(shop.cart, shipping, response, time));
  }

  /**
   * A successful payment whose cart passed the stock check against the same
   * ledger reports no stock failure and takes exactly each line's quantity.
   */
  lemma CheckedPaymentDecrementsStock(shop: Shop, shipping: Orders.ShippingInfo, response: PaymentResponse, time: int, p: string)
    requires response.success
    requires Cart.UniqueLines(shop.cart) && Inventory.UniqueEntries(shop.ledger)
    requires StockShortfall(shop.cart, shop.ledger).None?
    ensures var r := CompletePayment(shop, shipping, response, time);
            && !r.stockFailed
            && Inventory.GetStock(r.shop.ledger, p)
               == Inventory.GetStock(shop.ledger, p) - (if Inventory.HasEntry(shop.ledger, p) then Cart.CurrentQuantity(shop.cart, p) else 0)
  {
    DecreaseAllSucceeds(shop.ledger, shop.cart, p);
    DecreaseAllExact(shop.ledger, shop.cart, p);
  }

  /**
   * Any successful payment on a cart with one line per product: the stock
   * failure is reported exactly when the cart would have failed the stock
   * check against the same ledger, and each product ends where its own
   * `decreaseStock` would leave it, refused lines included.
   */
  lemma PaymentStockPerLine(shop: Shop, shipping: Orders.ShippingInfo, response: PaymentResponse, time: int, p: string)
    requires response.success
    requires Cart.UniqueLines(shop.cart) && Inventory.UniqueEntries(shop.ledger)
    ensures var r := CompletePayment(shop, shipping, response, time);
            && (r.stockFailed <==> StockShortfall(shop.cart, shop.ledger).Some?)
            && Inventory.UniqueEntries(r.shop.ledger)
            && Inventory.GetStock(r.shop.ledger, p)
               == Inventory.GetStock(Inventory.DecreaseStock(shop.ledger, p, Cart.CurrentQuantity(shop.cart, p)).1, p)
  {
    DecreaseAllFlag(shop.ledger, shop.cart);
    DecreaseAllKeepsEntries(shop.ledger, shop.cart, p);
    DecreaseAllPerLine(shop.ledger, shop.cart, p);
  }
}
