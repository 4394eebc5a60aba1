/**
 * Coupon and referral code formats, and the records the account-side coupon
 * helpers hand to the database. `Math.random()` is a supplied sequence of
 * draws in [0, 1); the clock is the parameter `now` in milliseconds.
 */
module CouponUtils {
  import opened Wrappers
  import Text

  /** The 36 characters a random code is drawn from. */
  const Alphabet: string := "ABCDEFGHIJKLMNOPQRSTUVWXYZ0123456789"

  const CouponCodeLength: nat := 8
  const ReferralCodeLength: nat := 6
  const DefaultCouponPrefix: string := "PRAYING"

  /** One day in milliseconds; coupons expire 30 days after issue. */
  const DayMs: int := 24 * 60 * 60 * 1000
  const ValidityDays: int := 30

  predicate IsDraw(d: real) {
    0.0 <= d < 1.0
  }

  predicate AreDraws(ds: seq<real>) {
    forall i :: 0 <= i < |ds| ==> IsDraw(ds[i])
  }

  /** An upper-case ASCII letter or a decimal digit. */
  predicate IsCodeChar(c: char) {
    'A' <= c <= 'Z' || '0' <= c <= '9'
  }

  lemma AlphabetIsCodeChars()
    ensures |Alphabet| == 36
    ensures forall i :: 0 <= i < |Alphabet| ==> IsCodeChar(Alphabet[i])
  {
  }

  /** `Math.floor(draw * characters.length)`: an index into the alphabet. */
  function Pick(d: real): (i: nat)
    requires IsDraw(d)
    ensures i < |Alphabet|
    ensures i as real <= d * 36.0 < i as real + 1.0
  {
    (d * 36.0).Floor
  }

  /** The characters the draws select, one per draw: the reference for both generators. */
  function Drawn(ds: seq<real>): (r: string)
    requires AreDraws(ds)
    ensures |r| == |ds|
    ensures forall i :: 0 <= i < |ds| ==> r[i] == Alphabet[Pick(ds[i])]
  {
    if ds == [] then [] else [Alphabet[Pick(ds[0])]] + Drawn(ds[1..])
  }

  /** Appends one drawn character per draw to `start`, as both generators' loops do. */
  method AppendDrawn(start: string, ds: seq<real>) returns (code: string)
    requires AreDraws(ds)
    ensures code == start + Drawn(ds)
  {
    code := start;
    var i := 0;
    while i < |ds|
      invariant 0 <= i <= |ds|
      invariant |code| == |start| + i
      invariant code[..|start|] == start
      invariant forall j :: 0 <= j < i ==> code[|start| + j] == Alphabet[Pick(ds[j])]
    {
      code := code + [Alphabet[Pick(ds[i])]];
      i := i + 1;
    }
    assert code == start + Drawn(ds);
  }

  /** `generateCouponCode(prefix)`: the prefix, a dash, then eight drawn characters. */
  method GenerateCouponCode(ds: seq<real>, prefix: string := DefaultCouponPrefix) returns (code: string)
    requires |ds| == CouponCodeLength && AreDraws(ds)
    ensures code == prefix + "-" + Drawn(ds)
    ensures |code| == |prefix| + 1 + CouponCodeLength
    ensures forall i :: |prefix| < i < |code| ==> IsCodeChar(code[i])
  {
    code := AppendDrawn(prefix + "-", ds);
    AlphabetIsCodeChars();
  }

  /** `generateReferralCode()`: six drawn characters. */
  method GenerateReferralCode(ds: seq<real>) returns (code: string)
    requires |ds| == ReferralCodeLength && AreDraws(ds)
    ensures code == Drawn(ds)
    ensures |code| == ReferralCodeLength
    ensures forall i :: 0 <= i < |code| ==> IsCodeChar(code[i])
  {
    code := AppendDrawn("", ds);
    AlphabetIsCodeChars();
  }

  /** The two coupon kinds the account helpers issue. */
  datatype CouponType = EarlyBird | Referral

  /**
   * A coupon row as the helpers create it. The discount is None when the
   * caller passes NaN (a settings value that did not parse).
   */
  datatype IssuedCoupon = IssuedCoupon(code: string, kind: CouponType, discount: Option<int>, userId: int, expiresAt: int)

  /** Thirty days after `now`. */
  function ExpiryFrom(now: int): int {
    now + ValidityDays * DayMs
  }

  /** The coupon `createEarlyBirdCoupon` builds from the given draws. */
  function EarlyBirdCoupon(ds: seq<real>, now: int, userId: int, discount: Option<int>): IssuedCoupon
    requires AreDraws(ds)
  {
    IssuedCoupon("EARLYBIRD-" + Drawn(ds), EarlyBird, discount, userId, ExpiryFrom(now))
  }

  /** `createEarlyBirdCoupon(userId, discount = 10)`. */
  method CreateEarlyBirdCoupon(ds: seq<real>, now: int, userId: int, discount: Option<int> := Some(10))
    returns (c: IssuedCoupon)
    requires |ds| == CouponCodeLength && AreDraws(ds)
    ensures c == EarlyBirdCoupon(ds, now, userId, discount)
    ensures c.code == "EARLYBIRD-" + Drawn(ds)
    ensures c.kind == EarlyBird && c.discount == discount && c.userId == userId
    ensures c.expiresAt - now == 30 * 86_400_000
  {
    var code := GenerateCouponCode(ds, "EARLYBIRD");
    c := IssuedCoupon(code, EarlyBird, discount, userId, ExpiryFrom(now));
  }

  /** `createReferralCoupon(userId, discount = 5)`. */
  method CreateReferralCoupon(ds: seq<real>, now: int, userId: int, discount: Option<int> := Some(5))
    returns (c: IssuedCoupon)
    requires |ds| == CouponCodeLength && AreDraws(ds)
    ensures c.code == "REFERRAL-" + Drawn(ds)
    ensures c.kind == Referral && c.discount == discount && c.userId == userId
    ensures c.expiresAt - now == 30 * 86_400_000
  {
    var code := GenerateCouponCode(ds, "REFERRAL");
    c := IssuedCoupon(code, Referral, discount, userId, ExpiryFrom(now));
  }

  // ---------------------------------------------------------------- properties

  /** Different picks give different codes: the drawn part determines the picks. */
  lemma {:induction false} DrawnDeterminesPicks(ds: seq<real>, es: seq<real>)
    requires AreDraws(ds) && AreDraws(es) && |ds| == |es|
    requires Drawn(ds) == Drawn(es)
    ensures forall i :: 0 <= i < |ds| ==> Pick(ds[i]) == Pick(es[i])
  {
    forall i | 0 <= i < |ds| ensures Pick(ds[i]) == Pick(es[i]) {
      assert Drawn(ds)[i] == Drawn(es)[i];
      AlphabetDistinct(Pick(ds[i]), Pick(es[i]));
    }
  }

  /** Position of a code character in the alphabet. */
  function AlphabetIndex(c: char): int
    requires IsCodeChar(c)
  {
    if 'A' <= c <= 'Z' then c as int - 'A' as int else c as int - '0' as int + 26
  }

  lemma AlphabetDistinct(i: nat, j: nat)
    requires i < |Alphabet| && j < |Alphabet| && Alphabet[i] == Alphabet[j]
    ensures i == j
  {
    AlphabetIndexes();
    assert AlphabetIndex(Alphabet[i]) == i && AlphabetIndex(Alphabet[j]) == j;
  }

  lemma AlphabetIndexes()
    ensures forall k :: 0 <= k < |Alphabet| ==> IsCodeChar(Alphabet[k]) && AlphabetIndex(Alphabet[k]) == k
  {
  }

  /**
   * A generated code with an upper-case prefix is unchanged by upper-casing,
   * so the case-insensitive coupon lookup finds it by its exact text.
   */
  lemma {:induction false} DrawnIsUpperCase(ds: seq<real>, prefix: string)
    requires AreDraws(ds)
    requires Text.ToUpper(prefix) == prefix
    ensures Text.ToUpper(prefix + "-" + Drawn(ds)) == prefix + "-" + Drawn(ds)
  {
    var code := prefix + "-" + Drawn(ds);
    AlphabetIsCodeChars();
    forall i | 0 <= i < |code| ensures Text.UpperChar(code[i]) == code[i] {
      if i < |prefix| {
        assert code[i] == prefix[i];
        assert Text.ToUpper(prefix)[i] == Text.UpperChar(prefix[i]);
      } else if i > |prefix| {
        assert code[i] == Drawn(ds)[i - |prefix| - 1];
      }
    }
  }
}
