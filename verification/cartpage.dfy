/**
 * The cart page's handlers and its price summary: applying and removing a
 * coupon, the +/- quantity buttons, and subtotal, discount and total.
 */
module CartPage {
  import opened Wrappers
  import Text
  import Inventory
  import Cart
  import Coupons

  /** The feedback line under the coupon field. */
  datatype Message =
    | NoMessage
    | EnterCode                            // the field was blank
    | CouponAccepted                       // validation passed and the code was applied
    | CouponRejected(reason: Coupons.Rejection)

  /** The page's coupon-related state: the coupon store, the field's text and the feedback line. */
  datatype CouponPanel = CouponPanel(coupons: Coupons.CouponState, field: string, message: Message)

  /** The field upper-cases whatever is typed into it. */
  function TypeIntoField(panel: CouponPanel, typed: string): (r: CouponPanel)
    ensures r.field == Text.ToUpper(typed) && r.coupons == panel.coupons
  {
    panel.(field := Text.ToUpper(typed))
  }

  /**
   * `handleApplyCoupon`: a blank field only sets the "enter a code" message;
   * otherwise the code is validated against the cart subtotal and, when
   * valid, applied and the field cleared.
   */
  function HandleApplyCoupon(panel: CouponPanel, cart: Cart.Cart, now: int): (r: CouponPanel)
    ensures Text.IsBlank(panel.field) ==> r == panel.(message := EnterCode)
    ensures !Text.IsBlank(panel.field) ==>
              var v := Coupons.ValidateCoupon(panel.coupons, panel.field, Cart.TotalPrice(cart), now);
              && (v == Coupons.Valid ==> r.message == CouponAccepted && r.field == []
                                         && r.coupons == Coupons.ApplyCoupon(panel.coupons, panel.field))
              && (v.Invalid? ==> r == panel.(message := CouponRejected(v.reason)))
  {
    Text.TrimEmptyIffBlank(panel.field);
    if Text.Trim(panel.field) == [] then panel.(message := EnterCode)
    else
      match Coupons.ValidateCoupon(panel.coupons, panel.field, Cart.TotalPrice(cart), now)
      case Valid => CouponPanel(Coupons.ApplyCoupon(panel.coupons, panel.field), [], CouponAccepted)
      case Invalid(reason) => panel.(message := CouponRejected(reason))
  }

  /** `handleRemoveCoupon`: drops the applied code and the message. */
  function HandleRemoveCoupon(panel: CouponPanel): (r: CouponPanel)
    ensures r.coupons.applied.None? && r.coupons.coupons == panel.coupons.coupons
    ensures r.message == NoMessage && r.field == panel.field
  {
    panel.(coupons := Coupons.RemoveCoupon(panel.coupons), message := NoMessage)
  }

  /** `handleQuantityChange`: the +/- buttons move the line's quantity by `change`, through `updateQuantity`. */
  function HandleQuantityChange(cart: Cart.Cart, ledger: Inventory.Ledger, id: string, change: int): (r: Cart.Cart)
    ensures !Cart.HasLine(cart, id) ==> r == cart
    ensures Cart.HasLine(cart, id) ==> r == Cart.UpdateQuantity(cart, ledger, id, Cart.CurrentQuantity(cart, id) + change)
  {
    if Cart.LineIndex(cart, id) < 0 then cart
    else Cart.UpdateQuantity(cart, ledger, id, Cart.CurrentQuantity(cart, id) + change)
  }

  datatype Summary = Summary(subtotal: int, discount: int, total: int)

  /** The discount shown: 0 unless a (non-empty) code is applied. */
  function ShownDiscount(coupons: Coupons.CouponState, subtotal: int): (r: int)
    ensures subtotal >= 0 ==> r <= subtotal
    ensures coupons.applied.Some? && coupons.applied.value != [] && Coupons.GetCoupon(coupons, coupons.applied.value).None? ==> r == 0
  {
    match coupons.applied
    case Some(code) =>
      if code == [] then 0
      else if subtotal >= 0 then
        Coupons.DiscountNeverExceedsTotal(coupons, code, subtotal);
        Coupons.CalculateDiscount(coupons, code, subtotal)
      else Coupons.CalculateDiscount(coupons, code, subtotal)
    case None => 0
  }

  /** The order summary box: the cart's total price, the applied coupon's discount on it, and their difference. */
  function PriceSummary(cart: Cart.Cart, coupons: Coupons.CouponState): (r: Summary)
    ensures r.subtotal == Cart.TotalPrice(cart)
    ensures r.total == r.subtotal - r.discount
    ensures coupons.applied.None? ==> r.discount == 0 && r.total == r.subtotal
    ensures coupons.applied.Some? && coupons.applied.value != [] ==>
              r.discount == Coupons.CalculateDiscount(coupons, coupons.applied.value, r.subtotal)
  {
    var subtotal := Cart.TotalPrice(cart);
    var discount := ShownDiscount(coupons, subtotal);
    Summary(subtotal, discount, subtotal - discount)
  }

  // ---------------------------------------------------------------- lemmas

  /** A code is applied exactly when the field is not blank and validation passes. */
  lemma ApplyIffValid(panel: CouponPanel, cart: Cart.Cart, now: int)
    requires panel.coupons.applied.None?
    ensures HandleApplyCoupon(panel, cart, now).coupons.applied.Some? <==>
              !Text.IsBlank(panel.field)
              && Coupons.Acceptable(panel.coupons, panel.field, Cart.TotalPrice(cart), now)
  {
  }

  /** The total never goes below zero for a cart whose subtotal is not negative. */
  lemma TotalNotNegative(cart: Cart.Cart, coupons: Coupons.CouponState)
    requires Cart.TotalPrice(cart) >= 0
    ensures PriceSummary(cart, coupons).total >= 0
  {
    match coupons.applied
    case None =>
    case Some(code) =>
      if code != [] {
        Coupons.DiscountNeverExceedsTotal(coupons, code, Cart.TotalPrice(cart));
      }
  }

  /**
   * The shown discount is not re-validated: with SAVE5000 applied, a subtotal
   * of 20000 won (below its 30000 minimum, so `validateCoupon` would now refuse
   * it) still shows 5000 off and a total of 15000.
   */
  lemma DiscountOutlivesMinimum(loadTime: int)
    ensures var coupons := Coupons.CouponState(Coupons.DefaultCoupons(loadTime), Some("SAVE5000"));
            && Coupons.ValidateCoupon(coupons, "SAVE5000", 20000, loadTime) == Coupons.Invalid(Coupons.BelowMinimum(30000))
            && ShownDiscount(coupons, 20000) == 5000
  {
    Coupons.Save5000BelowMinimum(loadTime, Some("SAVE5000"));
    Coupons.Save5000FlatDiscount(loadTime, Some("SAVE5000"), 20000);
  }

  /** The "-" button on a line holding 1 removes the line and keeps the others in order. */
  lemma MinusAtOneRemovesLine(cart: Cart.Cart, ledger: Inventory.Ledger, i: int)
    requires Cart.UniqueLines(cart)
    requires 0 <= i < |cart| && cart[i].quantity == 1
    ensures HandleQuantityChange(cart, ledger, cart[i].product.id, -1) == cart[..i] + cart[i + 1..]
  {
    Cart.LineIndexUnique(cart, cart[i].product.id, i);
    Cart.RemoveCutsOneLine(cart, cart[i].product.id, i);
  }

  /** The "+" button never takes a line past the larger of its quantity and the stock. */
  lemma PlusRespectsStock(cart: Cart.Cart, ledger: Inventory.Ledger, i: int)
    requires Cart.UniqueLines(cart)
    requires 0 <= i < |cart| && cart[i].quantity >= 0
    ensures var r := HandleQuantityChange(cart, ledger, cart[i].product.id, 1);
            var stock := Inventory.GetStock(ledger, cart[i].product.id);
            && |r| == |cart|
            && r[i].quantity >= 1
            && r[i].quantity <= (if cart[i].quantity + 1 > stock then (if stock > 1 then stock else 1) else cart[i].quantity + 1)
  {
    var id := cart[i].product.id;
    Cart.LineIndexUnique(cart, id, i);
    assert HandleQuantityChange(cart, ledger, id, 1) == Cart.UpdateQuantity(cart, ledger, id, cart[i].quantity + 1);
    Cart.UpdateSetsClampedQuantity(cart, ledger, id, cart[i].quantity + 1, i);
  }
}
