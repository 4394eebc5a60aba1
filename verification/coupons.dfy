/**
 * The coupon registry: case-insensitive lookup, the ordered validation
 * checks, and the discount arithmetic.
 */
module Coupons {
  import opened Wrappers
  import Text
  import Seqs

  datatype Kind = Percentage | Fixed

  /** A coupon; `maxDiscount` is the optional cap of percentage coupons. */
  datatype Coupon = Coupon(
    code: string,
    kind: Kind,
    value: int,
    minPurchase: int,
    maxDiscount: Option<int>,
    validFrom: int,
    validUntil: int,
    usageLimit: int,
    usedCount: int,
    description: string)

  /** The store: the coupon list and the code of the applied coupon, if any. */
  datatype CouponState = CouponState(coupons: seq<Coupon>, applied: Option<string>)

  const DayMs: int := 24 * 60 * 60 * 1000

  /** The sample coupons, whose windows open at `loadTime`, the moment the module is loaded. */
  function DefaultCoupons(loadTime: int): (r: seq<Coupon>)
    ensures |r| == 3
    ensures forall i :: 0 <= i < |r| ==>
              r[i].validFrom == loadTime < r[i].validUntil && r[i].usedCount == 0 < r[i].usageLimit
  {
    [ Coupon("WELCOME10", Percentage, 10, 0, Some(10000), loadTime, loadTime + 365 * DayMs,
             1000, 0, "신규 가입 환영 10% 할인"),
      Coupon("SAVE5000", Fixed, 5000, 30000, None, loadTime, loadTime + 30 * DayMs,
             500, 0, "3만원 이상 구매 시 5천원 할인"),
      Coupon("SPECIAL20", Percentage, 20, 50000, Some(20000), loadTime, loadTime + 7 * DayMs,
             100, 0, "특별 20% 할인 (5만원 이상)") ]
  }

  /** `initializeCoupons`: seeds the sample coupons only into an empty list. */
  function InitializeCoupons(s: CouponState, loadTime: int): (r: CouponState)
    ensures r.applied == s.applied
    ensures |s.coupons| == 0 ==> r.coupons == DefaultCoupons(loadTime)
    ensures |s.coupons| > 0 ==> r == s
  {
    if |s.coupons| == 0 then s.(coupons := DefaultCoupons(loadTime)) else s
  }

  /** The two codes are equal once both are upper-cased. */
  predicate SameCode(a: string, b: string) {
    Text.ToUpper(a) == Text.ToUpper(b)
  }

  /** `getCoupon`: the first coupon whose code matches `code` ignoring case. */
  function GetCoupon(s: CouponState, code: string): (r: Option<Coupon>)
    ensures r.Some? ==> r.value in s.coupons && SameCode(r.value.code, code)
    ensures r.Some? ==> exists i :: 0 <= i < |s.coupons| && s.coupons[i] == r.value
                          && forall j :: 0 <= j < i ==> !SameCode(s.coupons[j].code, code)
    ensures r.None? <==> forall i :: 0 <= i < |s.coupons| ==> !SameCode(s.coupons[i].code, code)
  {
    Seqs.Find(s.coupons, (c: Coupon) => SameCode(c.code, code))
  }

  /** Why a coupon was refused; each carries the check that failed. */
  datatype Rejection =
    | UnknownCode
    | NotYetValid
    | Expired
    | UsageExhausted
    | BelowMinimum(minPurchase: int)

  datatype Validation = Valid | Invalid(reason: Rejection)

  /** All five conditions for accepting `code` on an order of `total` at time `now`. */
  predicate Acceptable(s: CouponState, code: string, total: int, now: int) {
    var c := GetCoupon(s, code);
    c.Some? && c.value.validFrom <= now <= c.value.validUntil
    && c.value.usedCount < c.value.usageLimit && total >= c.value.minPurchase
  }

  /**
   * `validateCoupon`: checks existence, window start, window end, usage and
   * minimum purchase in that order and reports the first failure only.
   */
  function ValidateCoupon(s: CouponState, code: string, total: int, now: int): (r: Validation)
    ensures r == Valid <==> Acceptable(s, code, total, now)
    ensures r == Invalid(UnknownCode) <==> GetCoupon(s, code).None?
    ensures r == Invalid(NotYetValid) <==> GetCoupon(s, code).Some? && now < GetCoupon(s, code).value.validFrom
    ensures r == Invalid(Expired) <==>
              GetCoupon(s, code).Some? && GetCoupon(s, code).value.validFrom <= now
              && now > GetCoupon(s, code).value.validUntil
    ensures r == Invalid(UsageExhausted) <==>
              GetCoupon(s, code).Some? && GetCoupon(s, code).value.validFrom <= now <= GetCoupon(s, code).value.validUntil
              && GetCoupon(s, code).value.usedCount >= GetCoupon(s, code).value.usageLimit
    ensures r.Invalid? && r.reason.BelowMinimum? ==>
              GetCoupon(s, code).Some? && r.reason.minPurchase == GetCoupon(s, code).value.minPurchase
              && total < r.reason.minPurchase
  {
    match GetCoupon(s, code)
    case None => Invalid(UnknownCode)
    case Some(c) =>
      if now < c.validFrom then Invalid(NotYetValid)
      else if now > c.validUntil then Invalid(Expired)
      else if c.usedCount >= c.usageLimit then Invalid(UsageExhausted)
      else if total < c.minPurchase then Invalid(BelowMinimum(c.minPurchase))
      else Valid
  }

  /** `applyCoupon`: records the upper-cased code; the coupons and their counters are untouched. */
  function ApplyCoupon(s: CouponState, code: string): (r: CouponState)
    ensures r.coupons == s.coupons
    ensures r.applied == Some(Text.ToUpper(code))
    ensures SameCode(r.applied.value, code)
  {
    Text.ToUpperIdempotent(code);
    s.(applied := Some(Text.ToUpper(code)))
  }

  /** `removeCoupon`: clears the applied code only. */
  function RemoveCoupon(s: CouponState): (r: CouponState)
    ensures r.coupons == s.coupons && r.applied.None?
  {
    s.(applied := None)
  }

  /**
   * The discount a coupon of this kind, value and cap gives on `total`:
   * `floor(total * value / 100)` for a percentage, capped by `maxDiscount`
   * when it is present and non-zero (JavaScript truthiness); `value` for a
   * fixed coupon; never more than `total`.
   */
  function DiscountFor(kind: Kind, value: int, maxDiscount: Option<int>, total: int): (r: int)
    ensures r <= total
    ensures kind == Fixed ==> r == if value < total then value else total
    ensures kind == Percentage && (maxDiscount.None? || maxDiscount.value == 0) ==>
              r == if total * value / 100 < total then total * value / 100 else total
    ensures kind == Percentage && maxDiscount.Some? && maxDiscount.value != 0 ==>
              r <= maxDiscount.value && r <= total * value / 100
              && (r == total || r == maxDiscount.value || r == total * value / 100)
  {
    var raw :=
      if kind == Percentage then
        var d := total * value / 100;   // Euclidean division by a positive divisor is Math.floor
        if maxDiscount.Some? && maxDiscount.value != 0 && maxDiscount.value < d then maxDiscount.value else d
      else value;
    if raw < total then raw else total
  }

  /**
   * `calculateDiscount`: 0 for an unknown code; otherwise the kind/value/cap
   * arithmetic alone — validity window, usage count and minimum purchase play
   * no part.
   */
  function CalculateDiscount(s: CouponState, code: string, total: int): (r: int)
    ensures GetCoupon(s, code).None? ==> r == 0
    ensures GetCoupon(s, code).Some? ==>
              var c := GetCoupon(s, code).value;
              r == DiscountFor(c.kind, c.value, c.maxDiscount, total)
    ensures r <= total || GetCoupon(s, code).None?
  {
    match GetCoupon(s, code)
    case None => 0
    case Some(c) => DiscountFor(c.kind, c.value, c.maxDiscount, total)
  }

  // ---------------------------------------------------------------- lemmas

  /** Lookup ignores case: codes equal after upper-casing find the same coupon. */
  lemma LookupCaseInsensitive(s: CouponState, a: string, b: string, total: int, now: int)
    requires SameCode(a, b)
    ensures GetCoupon(s, a) == GetCoupon(s, b)
    ensures ValidateCoupon(s, a, total, now) == ValidateCoupon(s, b, total, now)
  {
  }

  /** The stored (upper-cased) code finds the same coupon the typed code found. */
  lemma AppliedCodeFindsSameCoupon(s: CouponState, code: string)
    ensures GetCoupon(ApplyCoupon(s, code), ApplyCoupon(s, code).applied.value) == GetCoupon(s, code)
  {
    LookupCaseInsensitive(s, ApplyCoupon(s, code).applied.value, code, 0, 0);
  }

  /** Initialising twice is initialising once. */
  lemma InitializeIdempotent(s: CouponState, t1: int, t2: int)
    ensures InitializeCoupons(InitializeCoupons(s, t1), t2) == InitializeCoupons(s, t1)
  {
  }

  /** A positive discount never exceeds the order, so `total - discount` is never negative. */
  lemma DiscountNeverExceedsTotal(s: CouponState, code: string, total: int)
    requires total >= 0
    ensures 0 <= total - CalculateDiscount(s, code, total)
  {
  }

  /** A validated percentage coupon with a non-negative rate never gives a negative discount. */
  lemma PercentageDiscountNonNegative(value: int, maxDiscount: Option<int>, total: int)
    requires total >= 0 && value >= 0
    requires maxDiscount.None? || maxDiscount.value >= 0
    ensures DiscountFor(Percentage, value, maxDiscount, total) >= 0
  {
    assert total * value >= 0;
  }

  lemma UpperOfLowerWelcome()
    ensures Text.ToUpper("welcome10") == "WELCOME10"
  {
    var s := "welcome10";
    var u := Text.ToUpper(s);
    assert forall i :: 0 <= i < |s| ==> u[i] == Text.UpperChar(s[i]);
  }

  lemma UpperOfWelcome()
    ensures Text.ToUpper("WELCOME10") == "WELCOME10"
  {
    var s := "WELCOME10";
    var u := Text.ToUpper(s);
    assert forall i :: 0 <= i < |s| ==> u[i] == Text.UpperChar(s[i]);
  }

  lemma UpperOfSave()
    ensures Text.ToUpper("SAVE5000") == "SAVE5000"
  {
    var s := "SAVE5000";
    var u := Text.ToUpper(s);
    assert forall i :: 0 <= i < |s| ==> u[i] == Text.UpperChar(s[i]);
  }

  /** The first coupon whose code matches is the one `getCoupon` returns. */
  lemma FirstMatchFound(s: CouponState, code: string, i: int)
    requires 0 <= i < |s.coupons| && SameCode(s.coupons[i].code, code)
    requires forall j :: 0 <= j < i ==> !SameCode(s.coupons[j].code, code)
    ensures GetCoupon(s, code) == Some(s.coupons[i])
  {
  }

  /** `WELCOME10` on 200000 won: 10% is 20000, capped at 10000. */
  lemma WelcomeCapExample(loadTime: int)
    ensures CalculateDiscount(CouponState(DefaultCoupons(loadTime), None), "welcome10", 200000) == 10000
  {
    var s := CouponState(DefaultCoupons(loadTime), None);
    UpperOfLowerWelcome();
    UpperOfWelcome();
    FirstMatchFound(s, "welcome10", 0);
  }

  lemma WelcomeIsNotSave()
    ensures !SameCode("WELCOME10", "SAVE5000")
  {
    UpperOfWelcome();
    UpperOfSave();
    assert |Text.ToUpper("WELCOME10")| != |Text.ToUpper("SAVE5000")|;
  }

  /** A code equal to the second coupon's, and not matching the first, finds the second. */
  lemma SecondCodeFound(cs: seq<Coupon>, applied: Option<string>, code: string)
    requires |cs| >= 2 && !SameCode(cs[0].code, code) && cs[1].code == code
    ensures GetCoupon(CouponState(cs, applied), code) == Some(cs[1])
  {
    FirstMatchFound(CouponState(cs, applied), code, 1);
  }

  /** `SAVE5000` is the second default coupon, whatever code is currently applied. */
  lemma Save5000Found(loadTime: int, applied: Option<string>)
    ensures GetCoupon(CouponState(DefaultCoupons(loadTime), applied), "SAVE5000") == Some(DefaultCoupons(loadTime)[1])
  {
    var cs := DefaultCoupons(loadTime);
    WelcomeIsNotSave();
    assert cs[0].code == "WELCOME10";
    SecondCodeFound(cs, applied, "SAVE5000");
  }

  /** `SAVE5000` needs a 30000 won order: 20000 is refused. */
  lemma Save5000BelowMinimum(loadTime: int, applied: Option<string>)
    ensures ValidateCoupon(CouponState(DefaultCoupons(loadTime), applied), "SAVE5000", 20000, loadTime)
         == Invalid(BelowMinimum(30000))
  {
    Save5000Found(loadTime, applied);
  }

  /** `SAVE5000` on 35000 won, inside its window, is accepted. */
  lemma Save5000Accepted(loadTime: int, applied: Option<string>)
    ensures ValidateCoupon(CouponState(DefaultCoupons(loadTime), applied), "SAVE5000", 35000, loadTime) == Valid
  {
    Save5000Found(loadTime, applied);
  }

  /** `SAVE5000` takes a flat 5000 won off any order of at least 5000 won, minimum purchase or not. */
  lemma Save5000FlatDiscount(loadTime: int, applied: Option<string>, total: int)
    requires total >= 5000
    ensures CalculateDiscount(CouponState(DefaultCoupons(loadTime), applied), "SAVE5000", total) == 5000
  {
    Save5000Found(loadTime, applied);
  }
}
