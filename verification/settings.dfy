/**
 * The system settings table (four string-valued keys) and its two readers
 * and one writer: `getSystemSettings` and the admin `GET` decode the table
 * the same way, the admin `POST` encodes a JSON body into it with `String`.
 * The key column is unique, so the table is a map from key to stored string.
 */
module Settings {
  import opened Wrappers
  import Text

  type Table = map<string, string>

  const EarlyBirdEnabledKey: string := "earlyBirdEnabled"
  const EarlyBirdDiscountKey: string := "earlyBirdDiscount"
  const ReferralEnabledKey: string := "referralEnabled"
  const ReferralDiscountKey: string := "referralDiscount"

  predicate IsSettingsKey(k: string) {
    k == EarlyBirdEnabledKey || k == EarlyBirdDiscountKey || k == ReferralEnabledKey || k == ReferralDiscountKey
  }

  lemma KeysDistinct()
    ensures EarlyBirdEnabledKey != EarlyBirdDiscountKey && EarlyBirdEnabledKey != ReferralEnabledKey
    ensures EarlyBirdEnabledKey != ReferralDiscountKey && EarlyBirdDiscountKey != ReferralEnabledKey
    ensures EarlyBirdDiscountKey != ReferralDiscountKey && ReferralEnabledKey != ReferralDiscountKey
  {
    assert EarlyBirdEnabledKey[9] != EarlyBirdDiscountKey[9];
    assert EarlyBirdEnabledKey[0] != ReferralEnabledKey[0];
    assert ReferralEnabledKey[8] != ReferralDiscountKey[8];
  }

  /**
   * The decoded settings. A discount is None when `parseInt` gives NaN
   * (which the JSON reply then carries as `null`).
   */
  datatype SystemSettings = SystemSettings(
    earlyBirdEnabled: bool,
    earlyBirdDiscount: Option<int>,
    referralEnabled: bool,
    referralDiscount: Option<int>)

  /** `settingsMap[key] === 'true'`: only that exact string enables a flag. */
  predicate FlagSet(t: Table, key: string) {
    key in t && t[key] == "true"
  }

  /** `settingsMap[key] || fallback`: a missing or empty value falls back. */
  function StoredOr(t: Table, key: string, fallback: string): string {
    if key in t && t[key] != "" then t[key] else fallback
  }

  /** Decoding shared by `getSystemSettings` and the admin `GET`. */
  function Decode(t: Table): (r: SystemSettings)
    ensures r.earlyBirdEnabled <==> FlagSet(t, EarlyBirdEnabledKey)
    ensures r.referralEnabled <==> FlagSet(t, ReferralEnabledKey)
    ensures EarlyBirdDiscountKey !in t || t[EarlyBirdDiscountKey] == "" ==> r.earlyBirdDiscount == Some(10)
    ensures ReferralDiscountKey !in t || t[ReferralDiscountKey] == "" ==> r.referralDiscount == Some(5)
    ensures EarlyBirdDiscountKey in t && t[EarlyBirdDiscountKey] != "" ==>
              r.earlyBirdDiscount == Text.ParseInt(t[EarlyBirdDiscountKey])
    ensures ReferralDiscountKey in t && t[ReferralDiscountKey] != "" ==>
              r.referralDiscount == Text.ParseInt(t[ReferralDiscountKey])
  {
    Text.ParseIntOfIntToString(10);
    Text.ParseIntOfIntToString(5);
    assert Text.IntToString(10) == "10" && Text.IntToString(5) == "5";
    SystemSettings(
      FlagSet(t, EarlyBirdEnabledKey),
      Text.ParseInt(StoredOr(t, EarlyBirdDiscountKey, "10")),
      FlagSet(t, ReferralEnabledKey),
      Text.ParseInt(StoredOr(t, ReferralDiscountKey, "5")))
  }

  datatype GetReply = Fetched(settings: SystemSettings) | FetchFailed

  /** The admin `GET`: `read` is None when the table cannot be read (status 500). */
  function Get(read: Option<Table>): (r: GetReply)
    ensures r.FetchFailed? <==> read.None?
    ensures read.Some? ==> r == Fetched(Decode(read.value))
  {
    match read
    case None => FetchFailed
    case Some(t) => Fetched(Decode(t))
  }

  // ---------------------------------------------------------------- POST

  /** A JSON field of the posted body; `Missing` is a property the body does not have. */
  datatype Value = Missing | Null | Bool(b: bool) | Num(n: int) | Str(s: string)

  /** `String(v)`. */
  function Encode(v: Value): (r: string)
    ensures v.Num? ==> Text.ParseInt(r) == Some(v.n)
  {
    match v
    case Missing => "undefined"
    case Null => "null"
    case Bool(b) => if b then "true" else "false"
    case Num(n) => Text.ParseIntOfIntToString(n); Text.IntToString(n)
    case Str(s) => s
  }

  /**
   * The request body: unreadable JSON and a `null` body both make the
   * destructuring throw; any other body supplies the four fields.
   */
  datatype Body =
    | Unreadable
    | NullBody
    | Fields(earlyBirdEnabled: Value, earlyBirdDiscount: Value, referralEnabled: Value, referralDiscount: Value)

  /** The upserts, in the order the handler issues them. */
  function Writes(b: Body): (ws: seq<(string, string)>)
    requires b.Fields?
    ensures |ws| == 4
  {
    [(EarlyBirdEnabledKey, Encode(b.earlyBirdEnabled)),
     (EarlyBirdDiscountKey, Encode(b.earlyBirdDiscount)),
     (ReferralEnabledKey, Encode(b.referralEnabled)),
     (ReferralDiscountKey, Encode(b.referralDiscount))]
  }

  /** Applies the upserts one after another. */
  function Upsert(t: Table, ws: seq<(string, string)>): Table
    decreases |ws|
  {
    if ws == [] then t else Upsert(t[ws[0].0 := ws[0].1], ws[1..])
  }

  datatype PostReply = Saved | SaveFailed

  /**
   * The admin `POST`. `failAt` is Some(k) when the k-th upsert (from 0)
   * throws: the earlier upserts stay written and the reply is a 500.
   */
  function Post(t: Table, b: Body, failAt: Option<nat>): (r: (Table, PostReply))
    ensures r.1 == Saved <==> b.Fields? && (failAt.None? || failAt.value >= 4)
    ensures !b.Fields? ==> r.0 == t
  {
    if !b.Fields? then (t, SaveFailed)
    else
      var ws := Writes(b);
      if failAt.Some? && failAt.value < 4 then (Upsert(t, ws[..failAt.value]), SaveFailed)
      else (Upsert(t, ws), Saved)
  }

  // ---------------------------------------------------------------- properties

  /** An empty table decodes to the defaults: both flags off, discounts 10 and 5. */
  lemma EmptyTableDefaults()
    ensures Decode(map[]) == SystemSettings(false, Some(10), false, Some(5))
  {
    Text.ParseIntOfIntToString(10);
    Text.ParseIntOfIntToString(5);
    assert Text.IntToString(10) == "10";
    assert Text.IntToString(5) == "5";
  }

  /** Keys other than the four are ignored by the decoder. */
  lemma OtherKeysIgnored(t: Table, k: string, v: string)
    requires !IsSettingsKey(k)
    ensures Decode(t[k := v]) == Decode(t)
  {
  }

  /** The table after a successful POST of `b`: each key holds `String` of its field. */
  function Posted(t: Table, b: Body): (r: Table)
    requires b.Fields?
    ensures r == Post(t, b, None).0
  {
    var ws := Writes(b);
    var t1 := t[ws[0].0 := ws[0].1];
    var t2 := t1[ws[1].0 := ws[1].1];
    var t3 := t2[ws[2].0 := ws[2].1];
    var t4 := t3[ws[3].0 := ws[3].1];
    assert Upsert(t, ws) == Upsert(t1, ws[1..]);
    assert Upsert(t1, ws[1..]) == Upsert(t2, ws[2..]) by {
      assert ws[1..][0] == ws[1] && ws[1..][1..] == ws[2..];
    }
    assert Upsert(t2, ws[2..]) == Upsert(t3, ws[3..]) by {
      assert ws[2..][0] == ws[2] && ws[2..][1..] == ws[3..];
    }
    assert Upsert(t3, ws[3..]) == t4 by {
      assert ws[3..][0] == ws[3] && ws[3..][1..] == [];
    }
    t4
  }

  /** What a successful POST leaves under each key: exactly `String` of the posted field, and nothing else changes. */
  lemma PostStoresStrings(t: Table, b: Body)
    requires b.Fields?
    ensures var r := Posted(t, b);
      && (forall k :: IsSettingsKey(k) ==> k in r)
      && r[EarlyBirdEnabledKey] == Encode(b.earlyBirdEnabled)
      && r[EarlyBirdDiscountKey] == Encode(b.earlyBirdDiscount)
      && r[ReferralEnabledKey] == Encode(b.referralEnabled)
      && r[ReferralDiscountKey] == Encode(b.referralDiscount)
      && forall k :: !IsSettingsKey(k) ==> (k in r <==> k in t) && (k in t ==> r[k] == t[k])
  {
    KeysDistinct();
  }

  /** Round trip: GET after POSTing booleans and integers returns exactly the posted values. */
  lemma RoundTrip(t: Table, early: bool, earlyDiscount: int, referral: bool, referralDiscount: int)
    ensures Decode(Posted(t, Fields(Bool(early), Num(earlyDiscount), Bool(referral), Num(referralDiscount))))
         == SystemSettings(early, Some(earlyDiscount), referral, Some(referralDiscount))
  {
    var b := Fields(Bool(early), Num(earlyDiscount), Bool(referral), Num(referralDiscount));
    PostStoresStrings(t, b);
    Text.ParseIntOfIntToString(earlyDiscount);
    Text.ParseIntOfIntToString(referralDiscount);
    var r := Posted(t, b);
    assert StoredOr(r, EarlyBirdDiscountKey, "10") == Text.IntToString(earlyDiscount);
    assert StoredOr(r, ReferralDiscountKey, "5") == Text.IntToString(referralDiscount);
  }

  /** POSTing the same body twice leaves the table as after one POST. */
  lemma PostIdempotent(t: Table, b: Body)
    requires b.Fields?
    ensures Posted(Posted(t, b), b) == Posted(t, b)
  {
    var once := Posted(t, b);
    var twice := Posted(once, b);
    PostStoresStrings(t, b);
    PostStoresStrings(once, b);
    assert forall k :: k in twice <==> k in once;
    assert forall k :: k in twice ==> twice[k] == once[k];
  }

  /** A flag reads back as enabled exactly when its posted value prints as "true". */
  lemma PostedFlagIff(t: Table, b: Body)
    requires b.Fields?
    ensures Decode(Posted(t, b)).earlyBirdEnabled <==> b.earlyBirdEnabled in {Bool(true), Str("true")}
    ensures Decode(Posted(t, b)).referralEnabled <==> b.referralEnabled in {Bool(true), Str("true")}
  {
    PostStoresStrings(t, b);
    EncodesTrueIff(b.earlyBirdEnabled);
    EncodesTrueIff(b.referralEnabled);
  }

  /** Only `true` and the string "true" print as "true". */
  lemma EncodesTrueIff(v: Value)
    ensures Encode(v) == "true" <==> v == Bool(true) || v == Str("true")
  {
    if v.Num? {
      var s := Text.IntToString(v.n);
      assert s[0] == '-' || Text.IsDigit(s[0]);
    } else if v.Missing? {
      assert Encode(v)[0] == 'u';
    } else if v.Null? {
      assert Encode(v)[0] == 'n';
    } else if v == Bool(false) {
      assert Encode(v)[0] == 'f';
    }
  }

  /**
   * A discount the body leaves out is stored as "undefined", which reads
   * back as NaN rather than as the default; an empty string does fall back.
   */
  lemma OmittedDiscountReadsNaN(t: Table, e: Value, r: Value)
    ensures Decode(Posted(t, Fields(e, Missing, r, Missing))).earlyBirdDiscount == None
    ensures Decode(Posted(t, Fields(e, Str(""), r, Str("")))).referralDiscount == Some(5)
  {
    PostStoresStrings(t, Fields(e, Missing, r, Missing));
    PostStoresStrings(t, Fields(e, Str(""), r, Str("")));
    Text.ParseIntOfIntToString(5);
    assert Text.IntToString(5) == "5";
    var u := "undefined";
    assert Text.TrimStart(u) == u;
    assert Text.DigitPrefixLength(u) == 0;
  }

  /** A POST whose first upsert throws, or whose body cannot be read, changes nothing. */
  lemma FailedPostBeforeWritesKeepsTable(t: Table, b: Body)
    ensures Post(t, b, Some(0)) == (t, SaveFailed)
  {
    if b.Fields? {
      assert Writes(b)[..0] == [];
    }
  }
}
