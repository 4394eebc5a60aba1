/**
 * The sign-in callback's decision over an abstract account store: whether
 * the visitor is new or returning, which rows are written for a new user
 * (the user, an early-bird coupon, a referral link and the referrer's
 * counter), and what the handler redirects to. The identity provider's two
 * fetches collapse into one supplied profile (or a provider failure); the
 * store is a value, and a store exception is a `Fault` naming how many
 * writes landed before it.
 */
module KakaoCallback {
  import opened Wrappers
  import Text
  import Seqs
  import Settings
  import CouponUtils

  datatype User = User(
    id: int,
    kakaoId: string,
    name: string,
    profileImage: Option<string>,
    email: Option<string>,
    lastLogin: int,
    channelAdded: bool,
    channelAddedAt: Option<int>,
    referralCode: string,
    referredBy: Option<string>,
    referralCount: int)

  datatype ReferralLink = ReferralLink(referrerId: int, referredId: int)

  /** The store: users, coupons, referral links, the settings table and the next user id. */
  datatype Db = Db(
    users: seq<User>,
    coupons: seq<CouponUtils.IssuedCoupon>,
    referrals: seq<ReferralLink>,
    settings: Settings.Table,
    nextId: int)

  /** The provider's profile: `id` and the optional nickname, image and e-mail fields. */
  datatype Profile = Profile(
    id: int,
    nickname: Option<string>,
    accountNickname: Option<string>,
    profileImage: Option<string>,
    accountProfileImage: Option<string>,
    email: Option<string>)

  /** Where the handler redirects. */
  datatype Outcome = NoCode | AuthFailed | SignedIn(userId: int, kakaoId: string)

  /**
   * What goes wrong, if anything: the provider refuses the code or the
   * profile, or the store throws after `writes` of the planned writes.
   */
  datatype Fault = NoFault | ProviderFails | StoreFailsAfter(writes: nat)

  /** A string value JavaScript treats as true: present and non-empty. */
  predicate Truthy(s: Option<string>) {
    s.Some? && s.value != ""
  }

  /** `a || b` over optional strings. */
  function Either(a: Option<string>, b: Option<string>): (r: Option<string>)
    ensures Truthy(a) ==> r == a
    ensures !Truthy(a) ==> r == b
  {
    if Truthy(a) then a else b
  }

  /** The nickname, else the account nickname, else "Unknown". */
  function DisplayName(p: Profile): (r: string)
    ensures r != ""
    ensures Truthy(p.nickname) ==> r == p.nickname.value
    ensures !Truthy(p.nickname) && Truthy(p.accountNickname) ==> r == p.accountNickname.value
    ensures !Truthy(p.nickname) && !Truthy(p.accountNickname) ==> r == "Unknown"
  {
    if Truthy(p.nickname) then p.nickname.value
    else if Truthy(p.accountNickname) then p.accountNickname.value
    else "Unknown"
  }

  /** One store write. */
  datatype Write =
    | Touch(kakaoId: string, profile: Profile, now: int)
    | Create(user: User)
    | Issue(coupon: CouponUtils.IssuedCoupon)
    | Link(link: ReferralLink)
    | Bump(userId: int)

  /**
   * A returning user's login update. A field the provider leaves undefined
   * is skipped by the update, so the stored image and e-mail then stay.
   */
  function Refreshed(u: User, p: Profile, now: int): (r: User)
    ensures r.id == u.id && r.kakaoId == u.kakaoId && r.referralCode == u.referralCode
    ensures r.referredBy == u.referredBy && r.referralCount == u.referralCount
    ensures r.name == DisplayName(p) && r.lastLogin == now && r.channelAdded && r.channelAddedAt == Some(now)
    ensures Truthy(p.profileImage) ==> r.profileImage == p.profileImage
    ensures !Truthy(p.profileImage) && p.accountProfileImage.Some? ==> r.profileImage == p.accountProfileImage
    ensures !Truthy(p.profileImage) && p.accountProfileImage.None? ==> r.profileImage == u.profileImage
    ensures p.email.Some? ==> r.email == p.email
    ensures p.email.None? ==> r.email == u.email
  {
    var image := Either(p.profileImage, p.accountProfileImage);
    u.(lastLogin := now,
       name := DisplayName(p),
       profileImage := if image.Some? then image else u.profileImage,
       email := if p.email.Some? then p.email else u.email,
       channelAdded := true,
       channelAddedAt := Some(now))
  }

  function Apply(db: Db, w: Write): Db {
    match w
    case Touch(kid, p, now) =>
      db.(users := Seqs.UpdateWhere(db.users, (u: User) => u.kakaoId == kid, (u: User) => Refreshed(u, p, now)))
    case Create(u) => db.(users := db.users + [u], nextId := db.nextId + 1)
    case Issue(c) => db.(coupons := db.coupons + [c])
    case Link(l) => db.(referrals := db.referrals + [l])
    case Bump(id) =>
      db.(users := Seqs.UpdateWhere(db.users, (u: User) => u.id == id, (u: User) => u.(referralCount := u.referralCount + 1)))
  }

  function ApplyAll(db: Db, ws: seq<Write>): Db
    decreases |ws|
  {
    if ws == [] then db else ApplyAll(Apply(db, ws[0]), ws[1..])
  }

  /** The user whose `kakaoId` matches (`findUnique`). */
  function UserByKakaoId(users: seq<User>, kid: string): Option<User> {
    Seqs.Find(users, (u: User) => u.kakaoId == kid)
  }

  /** The user whose `referralCode` matches (`findUnique`). */
  function UserByReferralCode(users: seq<User>, code: string): Option<User> {
    Seqs.Find(users, (u: User) => u.referralCode == code)
  }

  /**
   * The row created for a first-time visitor. The create call sets neither
   * the login time nor the referral count; the model gives them `now` and 0,
   * the defaults the user table's schema is taken to supply.
   */
  function NewUser(db: Db, p: Profile, ref: Option<string>, referralDraws: seq<real>, now: int): User
    requires CouponUtils.AreDraws(referralDraws)
  {
    User(db.nextId, Text.IntToString(p.id), DisplayName(p),
         Either(p.profileImage, p.accountProfileImage), p.email,
         now, true, Some(now), CouponUtils.Drawn(referralDraws),
         if Truthy(ref) then ref else None, 0)
  }

  /** The early-bird coupon, when the settings enable it. */
  function EarlyBirdWrites(s: Settings.SystemSettings, u: User, couponDraws: seq<real>, now: int): seq<Write>
    requires CouponUtils.AreDraws(couponDraws)
  {
    if s.earlyBirdEnabled then [Issue(CouponUtils.EarlyBirdCoupon(couponDraws, now, u.id, s.earlyBirdDiscount))]
    else []
  }

  /**
   * The referral link and counter bump. The referrer is looked up after the
   * new user row exists, so the new user's own code is among the candidates.
   */
  function ReferralWrites(s: Settings.SystemSettings, users: seq<User>, u: User, ref: Option<string>): seq<Write> {
    if Truthy(ref) && s.referralEnabled then
      match UserByReferralCode(users + [u], ref.value)
      case Some(referrer) => [Link(ReferralLink(referrer.id, u.id)), Bump(referrer.id)]
      case None => []
    else []
  }

  /** What the handler sets out to write, and who ends up signed in. */
  datatype Plan = Plan(writes: seq<Write>, userId: int)

  function PlanFor(db: Db, p: Profile, ref: Option<string>, referralDraws: seq<real>, couponDraws: seq<real>, now: int): Plan
    requires CouponUtils.AreDraws(referralDraws) && CouponUtils.AreDraws(couponDraws)
  {
    var s := Settings.Decode(db.settings);
    var kid := Text.IntToString(p.id);
    match UserByKakaoId(db.users, kid)
    case Some(existing) => Plan([Touch(kid, p, now)], existing.id)
    case None =>
      var u := NewUser(db, p, ref, referralDraws, now);
      Plan([Create(u)] + EarlyBirdWrites(s, u, couponDraws, now) + ReferralWrites(s, db.users, u, ref), u.id)
  }

  /** Creating a user whose referral code is already taken violates the unique column. */
  predicate CodeTaken(db: Db, p: Profile, referralDraws: seq<real>)
    requires CouponUtils.AreDraws(referralDraws)
  {
    UserByKakaoId(db.users, Text.IntToString(p.id)).None?
    && UserByReferralCode(db.users, CouponUtils.Drawn(referralDraws)).Some?
  }

  /**
   * The callback. `code` and `ref` are the query parameters; `profile` is
   * what the provider returns for the code.
   */
  function Handle(db: Db, code: Option<string>, ref: Option<string>, profile: Profile,
                  referralDraws: seq<real>, couponDraws: seq<real>, now: int, fault: Fault): (r: (Db, Outcome))
    requires CouponUtils.AreDraws(referralDraws) && CouponUtils.AreDraws(couponDraws)
    ensures r.1 == NoCode <==> !Truthy(code)
    ensures r.1.SignedIn? ==> fault.NoFault? || (fault.StoreFailsAfter? && fault.writes >= |PlanFor(db, profile, ref, referralDraws, couponDraws, now).writes|)
    ensures r.1 != NoCode && !r.1.SignedIn? ==> r.1 == AuthFailed
  {
    if !Truthy(code) then (db, NoCode)
    else if fault.ProviderFails? then (db, AuthFailed)
    else if CodeTaken(db, profile, referralDraws) then (db, AuthFailed)
    else
      var plan := PlanFor(db, profile, ref, referralDraws, couponDraws, now);
      if fault.StoreFailsAfter? && fault.writes < |plan.writes| then
        (ApplyAll(db, plan.writes[..fault.writes]), AuthFailed)
      else
        (ApplyAll(db, plan.writes), SignedIn(plan.userId, Text.IntToString(profile.id)))
  }

  // ---------------------------------------------------------------- properties

  lemma ApplyAllAppend(db: Db, a: seq<Write>, b: seq<Write>)
    ensures ApplyAll(db, a + b) == ApplyAll(ApplyAll(db, a), b)
    decreases |a|
  {
    if a != [] {
      assert (a + b)[1..] == a[1..] + b;
      ApplyAllAppend(Apply(db, a[0]), a[1..], b);
    } else {
      assert a + b == b;
    }
  }

  /** Without a `code` parameter nothing is written and the visitor is sent back with `no_code`. */
  lemma MissingCodeChangesNothing(db: Db, code: Option<string>, ref: Option<string>, profile: Profile,
                                  rd: seq<real>, cd: seq<real>, now: int, fault: Fault)
    requires CouponUtils.AreDraws(rd) && CouponUtils.AreDraws(cd)
    requires !Truthy(code)
    ensures Handle(db, code, ref, profile, rd, cd, now, fault) == (db, NoCode)
  {
  }

  /** The visitor has no account yet. */
  predicate IsNew(db: Db, p: Profile) {
    UserByKakaoId(db.users, Text.IntToString(p.id)).None?
  }

  /** The referrer a new user's `ref` finds, looked up once the new row exists. */
  function Referrer(db: Db, p: Profile, ref: Option<string>, rd: seq<real>, now: int): Option<User>
    requires CouponUtils.AreDraws(rd) && ref.Some?
  {
    UserByReferralCode(db.users + [NewUser(db, p, ref, rd, now)], ref.value)
  }

  // The three tables a write sequence appends to, and the number of users it creates.

  function Issued(ws: seq<Write>): seq<CouponUtils.IssuedCoupon> {
    if ws == [] then [] else (if ws[0].Issue? then [ws[0].coupon] else []) + Issued(ws[1..])
  }

  function Linked(ws: seq<Write>): seq<ReferralLink> {
    if ws == [] then [] else (if ws[0].Link? then [ws[0].link] else []) + Linked(ws[1..])
  }

  function Created(ws: seq<Write>): nat {
    if ws == [] then 0 else (if ws[0].Create? then 1 else 0) + Created(ws[1..])
  }

  /** Coupons and links are appended in write order; settings are never written. */
  lemma {:induction false} ApplyAllTables(db: Db, ws: seq<Write>)
    ensures ApplyAll(db, ws).coupons == db.coupons + Issued(ws)
    ensures ApplyAll(db, ws).referrals == db.referrals + Linked(ws)
    ensures ApplyAll(db, ws).settings == db.settings
    ensures ApplyAll(db, ws).nextId == db.nextId + Created(ws)
    decreases |ws|
  {
    if ws != [] {
      ApplyAllTables(Apply(db, ws[0]), ws[1..]);
      var d1 := Apply(db, ws[0]);
      assert d1.coupons == db.coupons + (if ws[0].Issue? then [ws[0].coupon] else []);
      assert d1.referrals == db.referrals + (if ws[0].Link? then [ws[0].link] else []);
    }
  }

  lemma {:induction false} ProjectionsAppend(a: seq<Write>, b: seq<Write>)
    ensures Issued(a + b) == Issued(a) + Issued(b)
    ensures Linked(a + b) == Linked(a) + Linked(b)
    ensures Created(a + b) == Created(a) + Created(b)
    decreases |a|
  {
    if a == [] {
      assert a + b == b;
    } else {
      assert (a + b)[1..] == a[1..] + b;
      ProjectionsAppend(a[1..], b);
    }
  }

  /** The projections of the new-user plan. */
  lemma NewUserPlanProjections(db: Db, p: Profile, ref: Option<string>, rd: seq<real>, cd: seq<real>, now: int)
    requires CouponUtils.AreDraws(rd) && CouponUtils.AreDraws(cd) && IsNew(db, p)
    ensures var s := Settings.Decode(db.settings);
      var u := NewUser(db, p, ref, rd, now);
      var ws := PlanFor(db, p, ref, rd, cd, now).writes;
      && ws == [Create(u)] + EarlyBirdWrites(s, u, cd, now) + ReferralWrites(s, db.users, u, ref)
      && Issued(ws) == Issued(EarlyBirdWrites(s, u, cd, now))
      && Linked(ws) == Linked(ReferralWrites(s, db.users, u, ref))
      && Created(ws) == 1
  {
    var s := Settings.Decode(db.settings);
    var u := NewUser(db, p, ref, rd, now);
    var eb := EarlyBirdWrites(s, u, cd, now);
    var rw := ReferralWrites(s, db.users, u, ref);
    ProjectionsAppend([Create(u)], eb);
    ProjectionsAppend([Create(u)] + eb, rw);
    if rw != [] {
      assert rw[1..][1..] == [];
    }
  }

  /** One write applied through `ApplyAll`. */
  lemma ApplyOne(db: Db, w: Write)
    ensures ApplyAll(db, [w]) == Apply(db, w)
  {
    assert [w][1..] == [];
  }

  /** A returning user gets only the login refresh: no coupon, no referral, no new row. */
  lemma ReturningUserOnlyRefreshed(db: Db, code: Option<string>, ref: Option<string>, p: Profile,
                                   rd: seq<real>, cd: seq<real>, now: int, e: User)
    requires CouponUtils.AreDraws(rd) && CouponUtils.AreDraws(cd) && Truthy(code)
    requires UserByKakaoId(db.users, Text.IntToString(p.id)) == Some(e)
    ensures var h := Handle(db, code, ref, p, rd, cd, now, NoFault);
      && h.1 == SignedIn(e.id, Text.IntToString(p.id))
      && h.0.coupons == db.coupons && h.0.referrals == db.referrals
      && h.0.settings == db.settings && h.0.nextId == db.nextId
      && |h.0.users| == |db.users|
      && forall i :: 0 <= i < |db.users| ==>
           h.0.users[i] == if db.users[i].kakaoId == Text.IntToString(p.id) then Refreshed(db.users[i], p, now) else db.users[i]
  {
    ApplyOne(db, Touch(Text.IntToString(p.id), p, now));
  }

  /** What a new user's sign-in leaves in the tables other than users. */
  lemma NewUserTables(db: Db, code: Option<string>, ref: Option<string>, p: Profile,
                      rd: seq<real>, cd: seq<real>, now: int)
    requires CouponUtils.AreDraws(rd) && CouponUtils.AreDraws(cd) && Truthy(code)
    requires IsNew(db, p) && !CodeTaken(db, p, rd)
    ensures var h := Handle(db, code, ref, p, rd, cd, now, NoFault);
      var s := Settings.Decode(db.settings);
      var u := NewUser(db, p, ref, rd, now);
      && h.1 == SignedIn(db.nextId, Text.IntToString(p.id))
      && h.0.coupons == db.coupons + Issued(EarlyBirdWrites(s, u, cd, now))
      && h.0.referrals == db.referrals + Linked(ReferralWrites(s, db.users, u, ref))
      && h.0.settings == db.settings && h.0.nextId == db.nextId + 1
  {
    NewUserPlanProjections(db, p, ref, rd, cd, now);
    ApplyAllTables(db, PlanFor(db, p, ref, rd, cd, now).writes);
  }

  /**
   * An early-bird coupon with the configured discount is issued to the new
   * user exactly when the visitor is new and the flag is on.
   */
  lemma EarlyBirdIff(db: Db, code: Option<string>, ref: Option<string>, p: Profile,
                     rd: seq<real>, cd: seq<real>, now: int)
    requires CouponUtils.AreDraws(rd) && CouponUtils.AreDraws(cd) && Truthy(code)
    requires !CodeTaken(db, p, rd)
    ensures var h := Handle(db, code, ref, p, rd, cd, now, NoFault);
      var s := Settings.Decode(db.settings);
      && (IsNew(db, p) && s.earlyBirdEnabled ==>
            h.0.coupons == db.coupons + [CouponUtils.EarlyBirdCoupon(cd, now, db.nextId, s.earlyBirdDiscount)])
      && (!(IsNew(db, p) && s.earlyBirdEnabled) ==> h.0.coupons == db.coupons)
  {
    var s := Settings.Decode(db.settings);
    if IsNew(db, p) {
      NewUserTables(db, code, ref, p, rd, cd, now);
      var u := NewUser(db, p, ref, rd, now);
      var eb := EarlyBirdWrites(s, u, cd, now);
      if s.earlyBirdEnabled {
        assert eb[1..] == [];
      }
    } else {
      var e := UserByKakaoId(db.users, Text.IntToString(p.id)).value;
      ReturningUserOnlyRefreshed(db, code, ref, p, rd, cd, now, e);
    }
  }

  /**
   * A referral link from the referrer to the new user is recorded exactly
   * when the visitor is new, `ref` is non-empty, referrals are enabled and a
   * user holds that referral code.
   */
  lemma ReferralIff(db: Db, code: Option<string>, ref: Option<string>, p: Profile,
                    rd: seq<real>, cd: seq<real>, now: int)
    requires CouponUtils.AreDraws(rd) && CouponUtils.AreDraws(cd) && Truthy(code)
    requires !CodeTaken(db, p, rd)
    ensures var h := Handle(db, code, ref, p, rd, cd, now, NoFault);
      var linked := IsNew(db, p) && Truthy(ref) && Settings.Decode(db.settings).referralEnabled
                    && Referrer(db, p, ref, rd, now).Some?;
      && (linked ==> h.0.referrals == db.referrals + [ReferralLink(Referrer(db, p, ref, rd, now).value.id, db.nextId)])
      && (!linked ==> h.0.referrals == db.referrals)
  {
    var s := Settings.Decode(db.settings);
    if IsNew(db, p) {
      NewUserTables(db, code, ref, p, rd, cd, now);
      var u := NewUser(db, p, ref, rd, now);
      var rw := ReferralWrites(s, db.users, u, ref);
      if rw != [] {
        assert rw[1..][0].Bump? && rw[1..][1..] == [];
        assert Linked(rw[1..]) == [];
        assert Linked(rw) == [rw[0].link];
      }
    } else {
      var e := UserByKakaoId(db.users, Text.IntToString(p.id)).value;
      ReturningUserOnlyRefreshed(db, code, ref, p, rd, cd, now, e);
    }
  }

  /** The store's uniqueness: ids, provider ids and referral codes are unique, and ids lie below `nextId`. */
  predicate WellFormed(db: Db) {
    && (forall i :: 0 <= i < |db.users| ==> db.users[i].id < db.nextId)
    && (forall i, j :: 0 <= i < j < |db.users| ==>
          && db.users[i].id != db.users[j].id
          && db.users[i].kakaoId != db.users[j].kakaoId
          && db.users[i].referralCode != db.users[j].referralCode)
  }

  /** Without a fault, the handler applies the whole plan and signs the user in. */
  lemma HandleCompletes(db: Db, code: Option<string>, ref: Option<string>, p: Profile,
                        rd: seq<real>, cd: seq<real>, now: int)
    requires CouponUtils.AreDraws(rd) && CouponUtils.AreDraws(cd) && Truthy(code)
    requires !CodeTaken(db, p, rd)
    ensures var plan := PlanFor(db, p, ref, rd, cd, now);
      Handle(db, code, ref, p, rd, cd, now, NoFault) == (ApplyAll(db, plan.writes), SignedIn(plan.userId, Text.IntToString(p.id)))
  {
  }

  /** Issuing coupons leaves the users alone. */
  lemma {:induction false} IssuesKeepUsers(db: Db, ws: seq<Write>)
    requires forall i :: 0 <= i < |ws| ==> ws[i].Issue?
    ensures ApplyAll(db, ws).users == db.users
    decreases |ws|
  {
    if ws != [] {
      IssuesKeepUsers(Apply(db, ws[0]), ws[1..]);
    }
  }

  /** The bump applied to the referrer's row. */
  function Credit(users: seq<User>, referrerId: int): seq<User> {
    Seqs.UpdateWhere(users, (x: User) => x.id == referrerId, (x: User) => x.(referralCount := x.referralCount + 1))
  }

  lemma UsersAfterNewPlan(db: Db, u: User, eb: seq<Write>, rw: seq<Write>)
    requires forall i :: 0 <= i < |eb| ==> eb[i].Issue?
    requires rw == [] || (|rw| == 2 && rw[0].Link? && rw[1] == Bump(rw[0].link.referrerId))
    ensures rw == [] ==> ApplyAll(db, [Create(u)] + eb + rw).users == db.users + [u]
    ensures rw != [] ==> ApplyAll(db, [Create(u)] + eb + rw).users == Credit(db.users + [u], rw[0].link.referrerId)
  {
    ApplyAllAppend(db, [Create(u)] + eb, rw);
    ApplyAllAppend(db, [Create(u)], eb);
    ApplyOne(db, Create(u));
    var d1 := Apply(db, Create(u));
    IssuesKeepUsers(d1, eb);
    var d2 := ApplyAll(d1, eb);
    if rw != [] {
      assert rw == [rw[0]] + [rw[1]];
      ApplyAllAppend(d2, [rw[0]], [rw[1]]);
      ApplyOne(d2, rw[0]);
      ApplyOne(Apply(d2, rw[0]), rw[1]);
    } else {
      assert [Create(u)] + eb + rw == [Create(u)] + eb;
    }
  }

  /** The users table after a new user's writes: the row is appended, then the referrer is credited. */
  lemma NewUserUsers(db: Db, code: Option<string>, ref: Option<string>, p: Profile,
                     rd: seq<real>, cd: seq<real>, now: int)
    requires CouponUtils.AreDraws(rd) && CouponUtils.AreDraws(cd) && Truthy(code)
    requires IsNew(db, p) && !CodeTaken(db, p, rd)
    ensures var h := Handle(db, code, ref, p, rd, cd, now, NoFault);
      var s := Settings.Decode(db.settings);
      var u := NewUser(db, p, ref, rd, now);
      var rw := ReferralWrites(s, db.users, u, ref);
      && (rw == [] ==> h.0.users == db.users + [u])
      && (rw != [] ==> h.0.users == Credit(db.users + [u], rw[0].link.referrerId))
  {
    var s := Settings.Decode(db.settings);
    var u := NewUser(db, p, ref, rd, now);
    var eb := EarlyBirdWrites(s, u, cd, now);
    var rw := ReferralWrites(s, db.users, u, ref);
    HandleCompletes(db, code, ref, p, rd, cd, now);
    NewUserPlanProjections(db, p, ref, rd, cd, now);
    UsersAfterNewPlan(db, u, eb, rw);
  }

  /**
   * The new row: the provider id, the display name, a fresh referral code
   * and `referredBy` = `ref` or null, whatever the flags say.
   */
  lemma NewUserRegistered(db: Db, code: Option<string>, ref: Option<string>, p: Profile,
                          rd: seq<real>, cd: seq<real>, now: int)
    requires CouponUtils.AreDraws(rd) && CouponUtils.AreDraws(cd) && Truthy(code)
    requires IsNew(db, p) && !CodeTaken(db, p, rd)
    ensures var h := Handle(db, code, ref, p, rd, cd, now, NoFault);
      && |h.0.users| == |db.users| + 1
      && var n := h.0.users[|db.users|];
      && n.id == db.nextId && n.kakaoId == Text.IntToString(p.id) && n.name == DisplayName(p)
      && n.referralCode == CouponUtils.Drawn(rd)
      && n.referredBy == (if Truthy(ref) then ref else None)
      && n == NewUser(db, p, ref, rd, now).(referralCount := n.referralCount)
  {
    NewUserUsers(db, code, ref, p, rd, cd, now);
  }

  /**
   * With a referrer among the existing users, that user's count rises by
   * exactly one and every other row, the new one included, is untouched.
   */
  lemma ReferrerCredited(db: Db, code: Option<string>, ref: Option<string>, p: Profile,
                         rd: seq<real>, cd: seq<real>, now: int, referrer: User)
    requires CouponUtils.AreDraws(rd) && CouponUtils.AreDraws(cd) && Truthy(code)
    requires WellFormed(db) && IsNew(db, p) && !CodeTaken(db, p, rd)
    requires Truthy(ref) && Settings.Decode(db.settings).referralEnabled
    requires UserByReferralCode(db.users, ref.value) == Some(referrer)
    ensures var h := Handle(db, code, ref, p, rd, cd, now, NoFault);
      && |h.0.users| == |db.users| + 1
      && h.0.users[|db.users|] == NewUser(db, p, ref, rd, now)
      && forall i :: 0 <= i < |db.users| ==>
           h.0.users[i] == if db.users[i].id == referrer.id
                           then db.users[i].(referralCount := db.users[i].referralCount + 1)
                           else db.users[i]
  {
    var s := Settings.Decode(db.settings);
    var u := NewUser(db, p, ref, rd, now);
    FoundBeforeAppend(db.users, u, ref.value, referrer);
    assert ReferralWrites(s, db.users, u, ref)[0].link.referrerId == referrer.id;
    NewUserUsers(db, code, ref, p, rd, cd, now);
    CreditOthersUntouched(db, u, referrer);
  }

  /** A code found among the existing users is found the same way once a row is appended. */
  lemma FoundBeforeAppend(users: seq<User>, u: User, code: string, found: User)
    requires UserByReferralCode(users, code) == Some(found)
    ensures UserByReferralCode(users + [u], code) == Some(found)
  {
    var k :| 0 <= k < |users| && users[k] == found && found.referralCode == code
             && forall j :: 0 <= j < k ==> users[j].referralCode != code;
    var all := users + [u];
    assert all[k] == found;
    assert forall j :: 0 <= j < k ==> all[j] == users[j];
  }

  lemma CreditOthersUntouched(db: Db, u: User, referrer: User)
    requires WellFormed(db) && u.id == db.nextId
    requires exists k :: 0 <= k < |db.users| && db.users[k] == referrer
    ensures var r := Credit(db.users + [u], referrer.id);
      && |r| == |db.users| + 1
      && r[|db.users|] == u
      && forall i :: 0 <= i < |db.users| ==>
           r[i] == if db.users[i].id == referrer.id
                   then db.users[i].(referralCount := db.users[i].referralCount + 1)
                   else db.users[i]
  {
    var all := db.users + [u];
    assert all[|db.users|] == u;
    assert forall i :: 0 <= i < |db.users| ==> all[i] == db.users[i];
  }

  /**
   * A `ref` equal to the code just drawn for the new user finds the new user
   * itself: the link points from the user to themself and their own count is 1.
   */
  lemma SelfReferral(db: Db, code: Option<string>, ref: Option<string>, p: Profile,
                     rd: seq<real>, cd: seq<real>, now: int)
    requires CouponUtils.AreDraws(rd) && CouponUtils.AreDraws(cd) && Truthy(code)
    requires IsNew(db, p) && !CodeTaken(db, p, rd)
    requires Truthy(ref) && Settings.Decode(db.settings).referralEnabled
    requires ref.value == CouponUtils.Drawn(rd)
    ensures var h := Handle(db, code, ref, p, rd, cd, now, NoFault);
      && h.0.referrals == db.referrals + [ReferralLink(db.nextId, db.nextId)]
      && |h.0.users| == |db.users| + 1
      && h.0.users[|db.users|].referralCount == 1
  {
    var u := NewUser(db, p, ref, rd, now);
    var all := db.users + [u];
    assert all[|db.users|] == u;
    assert forall j :: 0 <= j < |db.users| ==> all[j].referralCode != ref.value;
    assert Referrer(db, p, ref, rd, now) == Some(u);
    ReferralIff(db, code, ref, p, rd, cd, now);
    NewUserUsers(db, code, ref, p, rd, cd, now);
  }

  /** A provider failure or a taken referral code redirects with `auth_failed` and writes nothing. */
  lemma RefusedSignInChangesNothing(db: Db, code: Option<string>, ref: Option<string>, p: Profile,
                                    rd: seq<real>, cd: seq<real>, now: int, fault: Fault)
    requires CouponUtils.AreDraws(rd) && CouponUtils.AreDraws(cd) && Truthy(code)
    requires fault.ProviderFails? || CodeTaken(db, p, rd) || fault == StoreFailsAfter(0)
    ensures Handle(db, code, ref, p, rd, cd, now, fault) == (db, AuthFailed)
  {
    if !fault.ProviderFails? && !CodeTaken(db, p, rd) {
      var ws := PlanFor(db, p, ref, rd, cd, now).writes;
      assert ws[..0] == [];
    }
  }

  /**
   * The writes are not atomic: when the store fails right after creating a
   * new user, the user row stays but no coupon or referral is recorded.
   */
  lemma FailureAfterCreateKeepsUser(db: Db, code: Option<string>, ref: Option<string>, p: Profile,
                                    rd: seq<real>, cd: seq<real>, now: int)
    requires CouponUtils.AreDraws(rd) && CouponUtils.AreDraws(cd) && Truthy(code)
    requires IsNew(db, p) && !CodeTaken(db, p, rd)
    requires Settings.Decode(db.settings).earlyBirdEnabled
    ensures var h := Handle(db, code, ref, p, rd, cd, now, StoreFailsAfter(1));
      && h.1 == AuthFailed
      && h.0 == db.(users := db.users + [NewUser(db, p, ref, rd, now)], nextId := db.nextId + 1)
  {
    var u := NewUser(db, p, ref, rd, now);
    NewUserPlanProjections(db, p, ref, rd, cd, now);
    var ws := PlanFor(db, p, ref, rd, cd, now).writes;
    assert ws[..1] == [Create(u)];
    ApplyOne(db, Create(u));
  }

  // ---------------------------------------------------------------- uniqueness is kept

  /** Writes other than `Create` keep every row's id, provider id and referral code. */
  lemma {:induction false} NonCreatesKeepKeys(db: Db, ws: seq<Write>)
    requires forall i :: 0 <= i < |ws| ==> !ws[i].Create?
    ensures var r := ApplyAll(db, ws);
      && |r.users| == |db.users| && r.nextId == db.nextId
      && forall i :: 0 <= i < |db.users| ==>
           r.users[i].id == db.users[i].id && r.users[i].kakaoId == db.users[i].kakaoId
           && r.users[i].referralCode == db.users[i].referralCode
    decreases |ws|
  {
    if ws != [] {
      NonCreatesKeepKeys(Apply(db, ws[0]), ws[1..]);
    }
  }

  lemma WellFormedByKeys(db: Db, r: Db)
    requires WellFormed(db)
    requires |r.users| == |db.users| && r.nextId == db.nextId
    requires forall i :: 0 <= i < |db.users| ==>
               r.users[i].id == db.users[i].id && r.users[i].kakaoId == db.users[i].kakaoId
               && r.users[i].referralCode == db.users[i].referralCode
    ensures WellFormed(r)
  {
  }

  /** Creating a row with a fresh id, provider id and referral code keeps the store well formed. */
  lemma CreateFreshKeepsWellFormed(db: Db, u: User)
    requires WellFormed(db) && u.id == db.nextId
    requires forall i :: 0 <= i < |db.users| ==> db.users[i].kakaoId != u.kakaoId && db.users[i].referralCode != u.referralCode
    ensures WellFormed(Apply(db, Create(u)))
  {
    var all := db.users + [u];
    assert forall i :: 0 <= i < |db.users| ==> all[i] == db.users[i];
  }

  /** Any prefix of the plan keeps the store's uniqueness. */
  lemma PlanPrefixKeepsWellFormed(db: Db, p: Profile, ref: Option<string>, rd: seq<real>, cd: seq<real>, now: int, n: nat)
    requires CouponUtils.AreDraws(rd) && CouponUtils.AreDraws(cd)
    requires WellFormed(db) && !CodeTaken(db, p, rd)
    requires n <= |PlanFor(db, p, ref, rd, cd, now).writes|
    ensures WellFormed(ApplyAll(db, PlanFor(db, p, ref, rd, cd, now).writes[..n]))
  {
    var ws := PlanFor(db, p, ref, rd, cd, now).writes;
    var done := ws[..n];
    if IsNew(db, p) {
      var u := NewUser(db, p, ref, rd, now);
      PlanTailCreatesNothing(db, p, ref, rd, cd, now);
      if n > 0 {
        assert done == [Create(u)] + done[1..];
        ApplyAllAppend(db, [Create(u)], done[1..]);
        ApplyOne(db, Create(u));
        CreateFreshKeepsWellFormed(db, u);
        var d1 := Apply(db, Create(u));
        NonCreatesKeepKeys(d1, done[1..]);
        WellFormedByKeys(d1, ApplyAll(d1, done[1..]));
      }
    } else {
      NonCreatesKeepKeys(db, done);
      WellFormedByKeys(db, ApplyAll(db, done));
    }
  }

  /** Whatever fails and wherever, the callback keeps the store's uniqueness. */
  lemma HandleKeepsWellFormed(db: Db, code: Option<string>, ref: Option<string>, p: Profile,
                              rd: seq<real>, cd: seq<real>, now: int, fault: Fault)
    requires CouponUtils.AreDraws(rd) && CouponUtils.AreDraws(cd)
    requires WellFormed(db)
    ensures WellFormed(Handle(db, code, ref, p, rd, cd, now, fault).0)
  {
    if Truthy(code) && !fault.ProviderFails? && !CodeTaken(db, p, rd) {
      var ws := PlanFor(db, p, ref, rd, cd, now).writes;
      if fault.StoreFailsAfter? && fault.writes < |ws| {
        PlanPrefixKeepsWellFormed(db, p, ref, rd, cd, now, fault.writes);
      } else {
        assert ws[..|ws|] == ws;
        PlanPrefixKeepsWellFormed(db, p, ref, rd, cd, now, |ws|);
      }
    }
  }

  lemma PlanTailCreatesNothing(db: Db, p: Profile, ref: Option<string>, rd: seq<real>, cd: seq<real>, now: int)
    requires CouponUtils.AreDraws(rd) && CouponUtils.AreDraws(cd) && IsNew(db, p)
    ensures var ws := PlanFor(db, p, ref, rd, cd, now).writes;
      |ws| >= 1 && ws[0] == Create(NewUser(db, p, ref, rd, now)) && forall i :: 1 <= i < |ws| ==> !ws[i].Create?
  {
  }
}
