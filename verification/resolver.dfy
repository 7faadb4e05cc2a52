/**
 * Threshold resolution and the record-or-skip decision
 * (`get_commission_threshold_type`, `get_default_threshold_rate`,
 * `get_recipient_threshold_rate`, `check_commission_threshold`).
 * Every `apply_filters` is the identity and every `do_action` a no-op.
 */
module Resolver {
  import opened Wrappers
  import opened Strings
  import opened Numbers
  import opened Settings

  const Earnings: string := "earnings"

  /**
   * The threshold type of a download: the stored 'type' when the key is set
   * (whatever its text), "earnings" otherwise.
   */
  function ThresholdType(store: Store, downloadId: int): (t: string)
    ensures var s := ProductSettings(store, downloadId);
      s.Some? && s.value.thresholdType.Some? ==> t == s.value.thresholdType.value
    ensures var s := ProductSettings(store, downloadId);
      s.None? || s.value.thresholdType.None? ==> t == Earnings
  {
    match ProductSettings(store, downloadId)
    case None => Earnings
    case Some(s) => s.thresholdType.GetOr(Earnings)
  }

  /** `get_default_threshold_rate()`: the shop-wide option, None standing for `false`. */
  function DefaultThresholdRate(store: Store): Option<string> {
    store.defaultRate
  }

  /**
   * PHP 7's loose `$id == $entry` between an integer and a string: the string
   * is cast to a number (its numeric prefix, else 0) and compared by value.
   */
  predicate LooseEquals(id: int, entry: string) {
    ToNumber(entry) == id as real
  }

  /** `array_search($id, $list)`: the first loosely equal position; None stands for `false`. */
  function ArraySearch(id: int, list: seq<string>): (r: Option<nat>)
    ensures r.Some? ==> r.value < |list| && LooseEquals(id, list[r.value])
    ensures r.Some? ==> forall j :: 0 <= j < r.value ==> !LooseEquals(id, list[j])
    ensures r.None? <==> forall j :: 0 <= j < |list| ==> !LooseEquals(id, list[j])
  {
    if |list| == 0 then None
    else if LooseEquals(id, list[0]) then Some(0)
    else
      var rest := ArraySearch(id, list[1..]);
      assert forall j :: 1 <= j < |list| ==> list[j] == list[1..][j - 1];
      if rest.None? then None else Some(rest.value + 1)
  }

  /** The 'threshold' list of a settings array, trimmed entry by entry; [] when the key is unset. */
  function ThresholdList(s: ThresholdSettings): seq<string> {
    if s.thresholds.Some? then TrimAll(Split(s.thresholds.value, ',')) else []
  }

  /** The 'user_id' list of a settings array, trimmed entry by entry; an unset key reads as "". */
  function RecipientList(s: ThresholdSettings): seq<string> {
    TrimAll(Split(s.userIds.GetOr(""), ','))
  }

  /**
   * The position the product-level lookup reads: the recipient's first
   * position in the id list, or 0 when absent, since a `false` array key
   * reads as key 0.
   */
  function RatePosition(s: ThresholdSettings, userId: int): (k: nat)
    ensures (forall j :: 0 <= j < |RecipientList(s)| ==> !LooseEquals(userId, RecipientList(s)[j])) ==> k == 0
    ensures (exists j :: 0 <= j < |RecipientList(s)| && LooseEquals(userId, RecipientList(s)[j])) ==>
      k < |RecipientList(s)| && LooseEquals(userId, RecipientList(s)[k])
      && forall j :: 0 <= j < k ==> !LooseEquals(userId, RecipientList(s)[j])
  {
    ArraySearch(userId, RecipientList(s)).GetOr(0)
  }

  /**
   * The product-level entry for a recipient: None (PHP `null`) when the
   * settings are absent or empty, or when the position is past the end of
   * the threshold list; otherwise the trimmed entry at that position, which
   * may be "".
   */
  function ProductEntry(settings: Option<ThresholdSettings>, userId: int): (r: Option<string>)
    ensures r.Some? ==> settings.Some? && !settings.value.IsEmpty() && settings.value.thresholds.Some?
    ensures r.Some? ==> Trimmed(r.value)
    ensures settings.Some? && !settings.value.IsEmpty() ==>
      (r.Some? <==> RatePosition(settings.value, userId) < |ThresholdList(settings.value)|)
    ensures r.Some? ==> r.value == ThresholdList(settings.value)[RatePosition(settings.value, userId)]
  {
    match settings
    case None => None
    case Some(s) =>
      if s.IsEmpty() then None
      else
        var rates := ThresholdList(s);
        var key := RatePosition(s, userId);
        if key < |rates| then Some(rates[key])
        else None
  }

  /** Which tier a resolved threshold rate came from, with the text it was cast from. */
  datatype RateSource =
    | ProductTier(entry: string)
    | UserTier(rate: string)
    | DefaultTier(rate: string)
    | NoTier

  /** The product-level entry consulted for a download: none for download id 0. */
  function ProductLookup(store: Store, downloadId: int, userId: int): (r: Option<string>)
    ensures downloadId == 0 || MetaId(downloadId) !in store.products ==> r.None?
    ensures r.Some? ==> !store.products[MetaId(downloadId)].IsEmpty()
    ensures downloadId != 0 && MetaId(downloadId) in store.products ==>
      r == ProductEntry(Some(store.products[MetaId(downloadId)]), userId)
  {
    if downloadId != 0 then ProductEntry(ProductSettings(store, downloadId), userId) else None
  }

  /**
   * The resolution order stated tier by tier, over the product entry, the
   * user id, the user's stored rate and the shop default: a non-empty product
   * entry wins; then a non-empty user rate for a non-zero user; then a truthy
   * shop default, except that an empty product entry met with user id 0
   * blocks it; else no tier.
   */
  function Tier(entry: Option<string>, userId: int, userRate: string, defaultRate: Option<string>): RateSource {
    if entry.Some? && entry.value != "" then ProductTier(entry.value)
    else if userId != 0 && userRate != "" then UserTier(userRate)
    else if (userId != 0 || entry.None?) && Truthy(defaultRate) then DefaultTier(defaultRate.value)
    else NoTier
  }

  /** The tier that supplies a recipient's threshold rate on a download. */
  function RateSourceOf(store: Store, downloadId: int, userId: int): RateSource {
    Tier(ProductLookup(store, downloadId, userId), userId, UserRate(store, userId), DefaultThresholdRate(store))
  }

  /** The text a tier supplies; None when no tier applies. */
  function SourceText(src: RateSource): Option<string> {
    match src
    case ProductTier(e) => Some(e)
    case UserTier(r) => Some(r)
    case DefaultTier(r) => Some(r)
    case NoTier => None
  }

  /** The number a tier's text casts to; 0 when no tier applies. */
  function SourceValue(src: RateSource): real {
    match SourceText(src)
    case None => 0.0
    case Some(t) => ToNumber(t)
  }

  /**
   * Lines 531-565 step by step as the code runs: `$rate` starts as the
   * product entry or null (None); the user step runs while it is null or "",
   * turning a "" user rate into null; the default step runs while it is null
   * and the default is truthy; a surviving null or "" becomes 0, here None.
   * The text that survives is exactly the text of the first tier that yields one.
   */
  function ResolveRateText(entry: Option<string>, userId: int, userRate: string,
                           defaultRate: Option<string>): (t: Option<string>)
    ensures t == SourceText(Tier(entry, userId, userRate, defaultRate))
  {
    var fromUser :=
      if userId != 0 && (entry.None? || entry == Some("")) then
        (if userRate == "" then None else Some(userRate))
      else entry;
    var fromDefault :=
      if fromUser.None? && Truthy(defaultRate) then defaultRate else fromUser;
    if fromDefault == Some("") then None else fromDefault
  }

  /**
   * `get_recipient_threshold_rate($download_id, $user_id)`: the surviving
   * text cast with `(float)`, or 0. The result is the value of the first
   * tier that yields one.
   */
  function RecipientThresholdRate(store: Store, downloadId: int, userId: int): (r: real)
    ensures r == SourceValue(RateSourceOf(store, downloadId, userId))
  {
    match ResolveRateText(ProductLookup(store, downloadId, userId), userId,
                          UserRate(store, userId), DefaultThresholdRate(store))
    case None => 0.0
    case Some(t) => ToNumber(t)
  }

  /** The `$payment_id` argument of the threshold check. */
  datatype PaymentArg =
    | PaymentScalar(text: string)   // an id passed as a number or string
    | PaymentObject                 // an `EDD_Payment` instance
    | OtherObject                   // any other object

  /** The check proceeds for a numeric non-object id or an `EDD_Payment`. */
  predicate PaymentAccepted(p: PaymentArg) {
    (p.PaymentScalar? && IsNumeric(p.text)) || p.PaymentObject?
  }

  /** Whether a total reaches a threshold rate of the given type. */
  predicate Reached(thresholdType: string, earnings: real, sales: int, rate: real) {
    if thresholdType == Earnings then earnings >= rate else sales as real >= rate
  }

  /**
   * `check_commission_threshold`: should the commission be recorded? The
   * download's earnings and sales totals are inputs. An unaccepted payment
   * argument skips the commission before any lookup; otherwise the
   * commission is recorded exactly when the total picked by the type
   * reaches the resolved rate. The incoming decision never matters: the
   * `true` forced for a download without settings is overwritten below it.
   */
  function CheckCommissionThreshold(store: Store, recordCommission: bool, recipient: int,
                                    downloadId: int, payment: PaymentArg,
                                    earnings: real, sales: int): (record: bool)
    ensures !PaymentAccepted(payment) ==> !record
    ensures PaymentAccepted(payment) ==>
      (record <==> Reached(ThresholdType(store, downloadId), earnings, sales,
                           SourceValue(RateSourceOf(store, downloadId, recipient))))
  {
    if !PaymentAccepted(payment) then false
    else
      var thresholdType := ThresholdType(store, downloadId);
      var rate := RecipientThresholdRate(store, downloadId, recipient);
      if thresholdType == Earnings then !(earnings < rate) else !(sales as real < rate)
  }
}

/** Properties of threshold resolution and of the record-or-skip decision. */
module ResolverFacts {
  import opened Wrappers
  import opened Strings
  import opened Numbers
  import opened Settings
  import opened Resolver

  /** "0" is numeric and casts to 0. */
  lemma ZeroText()
    ensures IsNumeric("0") && ToNumber("0") == 0.0
  {
    DigitsRoundTrip("0");
    assert DigitsValue("0") == DigitsValue("") * 10 + DigitValue('0');
  }

  /**
   * An explicit "0" product entry is a configured zero: it stops the
   * fallthrough even when user and shop-wide rates exist.
   */
  lemma ExplicitZeroStopsFallthrough(store: Store, downloadId: int, userId: int)
    requires ProductLookup(store, downloadId, userId) == Some("0")
    ensures RateSourceOf(store, downloadId, userId) == ProductTier("0")
    ensures RecipientThresholdRate(store, downloadId, userId) == 0.0
  {
    ZeroText();
  }

  /**
   * A non-empty product entry is the rate; an empty one leaves the choice
   * to the lower tiers.
   */
  lemma LookupResolves(store: Store, downloadId: int, userId: int, e: string)
    requires ProductLookup(store, downloadId, userId) == Some(e)
    ensures e != "" ==> RecipientThresholdRate(store, downloadId, userId) == ToNumber(e)
    ensures e == "" ==>
      RateSourceOf(store, downloadId, userId) == Tier(Some(""), userId, UserRate(store, userId), DefaultThresholdRate(store))
  {
  }

  /** An empty product entry is "not configured": a non-zero user's stored rate applies. */
  lemma EmptyEntryFallsThrough(store: Store, downloadId: int, userId: int)
    requires ProductLookup(store, downloadId, userId) == Some("")
    requires userId != 0 && UserRate(store, userId) != ""
    ensures RecipientThresholdRate(store, downloadId, userId) == ToNumber(UserRate(store, userId))
  {
  }

  /** With neither a product entry nor a user rate, a truthy shop default applies. */
  lemma DefaultAppliesWhenNothingElse(store: Store, downloadId: int, userId: int)
    requires ProductLookup(store, downloadId, userId) in {None, Some("")}
    requires userId != 0 && UserRate(store, userId) == ""
    requires Truthy(store.defaultRate)
    ensures RecipientThresholdRate(store, downloadId, userId) == ToNumber(store.defaultRate.value)
  {
  }

  /**
   * With user id 0 an empty product entry survives as "", which the shop
   * default step (testing for null only) does not replace: the rate is 0
   * whatever the default.
   */
  lemma EmptyEntryWithoutUserSkipsDefault(store: Store, downloadId: int)
    requires ProductLookup(store, downloadId, 0) == Some("")
    ensures RateSourceOf(store, downloadId, 0) == NoTier
    ensures RecipientThresholdRate(store, downloadId, 0) == 0.0
  {
  }

  /**
   * The resolved rate is not necessarily non-negative: a user rate is stored
   * unvalidated, and "-5" resolves to -5.
   */
  lemma NegativeUserRateResolves(store: Store, downloadId: int, userId: int)
    requires ProductLookup(store, downloadId, userId) == None
    requires userId != 0 && UserRate(store, userId) == "-5"
    ensures RecipientThresholdRate(store, downloadId, userId) == -5.0
  {
    NegativeDigitsRoundTrip("5");
    assert DigitsValue("5") == DigitsValue("") * 10 + DigitValue('5');
    assert "-" + "5" == "-5";
  }

  /** The settings array written for index-aligned id and threshold lists. */
  function AlignedSettings(thresholdType: Option<string>, ids: seq<string>, ts: seq<string>): ThresholdSettings {
    ThresholdSettings(thresholdType, Some(Join(ids, ',')), Some(Join(ts, ',')))
  }

  predicate CommaFree(parts: seq<string>) {
    forall k :: 0 <= k < |parts| ==> ',' !in parts[k]
  }

  /** Reading back comma-free lists written with implode gives the trimmed lists. */
  lemma AlignedLists(thresholdType: Option<string>, ids: seq<string>, ts: seq<string>)
    requires |ids| >= 1 && |ts| >= 1 && CommaFree(ids) && CommaFree(ts)
    ensures RecipientList(AlignedSettings(thresholdType, ids, ts)) == TrimAll(ids)
    ensures ThresholdList(AlignedSettings(thresholdType, ids, ts)) == TrimAll(ts)
    ensures !AlignedSettings(thresholdType, ids, ts).IsEmpty()
  {
    SplitJoin(ids, ',');
    SplitJoin(ts, ',');
  }

  /**
   * Positional lookup: the threshold used for a recipient is the entry at
   * the recipient's first position in the trimmed id list.
   */
  lemma ProductEntryAtPosition(thresholdType: Option<string>, ids: seq<string>, ts: seq<string>,
                               userId: int, i: nat)
    requires |ids| >= 1 && |ts| >= 1 && CommaFree(ids) && CommaFree(ts)
    requires ArraySearch(userId, TrimAll(ids)) == Some(i) && i < |ts|
    ensures ProductEntry(Some(AlignedSettings(thresholdType, ids, ts)), userId) == Some(Trim(ts[i]))
  {
    AlignedLists(thresholdType, ids, ts);
  }

  /**
   * Misaligned lists: a recipient whose position is past the end of the
   * threshold list has no product entry, so the lookup falls through.
   */
  lemma ProductEntryPastEnd(thresholdType: Option<string>, ids: seq<string>, ts: seq<string>,
                            userId: int, i: nat)
    requires |ids| >= 1 && |ts| >= 1 && CommaFree(ids) && CommaFree(ts)
    requires ArraySearch(userId, TrimAll(ids)) == Some(i) && i >= |ts|
    ensures ProductEntry(Some(AlignedSettings(thresholdType, ids, ts)), userId) == None
  {
    AlignedLists(thresholdType, ids, ts);
  }

  /**
   * A recipient missing from the id list gets `false` from array_search,
   * which as an array key reads position 0: the first threshold is used.
   */
  lemma ProductEntryAbsentRecipient(thresholdType: Option<string>, ids: seq<string>, ts: seq<string>,
                                    userId: int)
    requires |ids| >= 1 && |ts| >= 1 && CommaFree(ids) && CommaFree(ts)
    requires ArraySearch(userId, TrimAll(ids)) == None
    ensures ProductEntry(Some(AlignedSettings(thresholdType, ids, ts)), userId) == Some(Trim(ts[0]))
  {
    AlignedLists(thresholdType, ids, ts);
  }

  /**
   * `array_search`'s loose comparison reads an entry's numeric prefix: "7abc"
   * matches id 7, and an entry with no number at all ("" or "abc") matches
   * id 0.
   */
  lemma LooseMatchReadsPrefix(id: nat, t: string)
    requires |t| >= 1 && !IsDigit(t[0]) && t[0] != '.' && t[0] != 'e' && t[0] != 'E'
    ensures LooseEquals(id, NatToString(id) + t)
    ensures LooseEquals(0, "")
  {
    CastReadsDigitPrefix(NatToString(id), t);
    assert ScanNumber("") == None;
  }

  /** The incoming `$record_commission` argument never changes the decision. */
  lemma CheckIgnoresIncomingDecision(store: Store, a: bool, b: bool, recipient: int, downloadId: int,
                                     payment: PaymentArg, earnings: real, sales: int)
    ensures CheckCommissionThreshold(store, a, recipient, downloadId, payment, earnings, sales)
         == CheckCommissionThreshold(store, b, recipient, downloadId, payment, earnings, sales)
  {
  }

  /**
   * Earnings-type thresholds are inclusive: earnings exactly at the rate
   * record the commission, anything below skips it.
   */
  lemma EarningsThresholdInclusive(store: Store, recipient: int, downloadId: int, payment: PaymentArg,
                                   earnings: real, sales: int)
    requires PaymentAccepted(payment) && ThresholdType(store, downloadId) == Earnings
    ensures var rate := RecipientThresholdRate(store, downloadId, recipient);
      CheckCommissionThreshold(store, true, recipient, downloadId, payment, rate, sales)
      && (earnings < rate ==> !CheckCommissionThreshold(store, true, recipient, downloadId, payment, earnings, sales))
  {
  }

  /** Any type text other than "earnings" compares the sales count. */
  lemma OtherTypesCompareSales(store: Store, recipient: int, downloadId: int, payment: PaymentArg,
                               earnings: real, sales: int)
    requires PaymentAccepted(payment) && ThresholdType(store, downloadId) != Earnings
    ensures CheckCommissionThreshold(store, true, recipient, downloadId, payment, earnings, sales)
        <==> sales as real >= RecipientThresholdRate(store, downloadId, recipient)
  {
  }

  /** Higher totals never turn a recorded commission into a skipped one. */
  lemma CheckMonotone(store: Store, recipient: int, downloadId: int, payment: PaymentArg,
                      earnings: real, sales: int, earnings': real, sales': int)
    requires earnings <= earnings' && sales <= sales'
    requires CheckCommissionThreshold(store, true, recipient, downloadId, payment, earnings, sales)
    ensures CheckCommissionThreshold(store, true, recipient, downloadId, payment, earnings', sales')
  {
  }

  /**
   * A download without threshold settings is not always recorded: the check
   * still compares its earnings ("earnings" being the default type) with the
   * user's rate, here "5".
   */
  lemma NoSettingsDoesNotForceRecording(store: Store, recipient: int, downloadId: int)
    requires ProductSettings(store, downloadId).None?
    requires recipient != 0 && UserRate(store, recipient) == "5"
    ensures !CheckCommissionThreshold(store, true, recipient, downloadId, PaymentObject, 0.0, 0)
  {
    DigitsRoundTrip("5");
    assert DigitsValue("5") == DigitsValue("") * 10 + DigitValue('5');
  }

  /**
   * Download id 0 has no post meta: whatever the store holds under key 0,
   * the type is "earnings" and there is no product entry.
   */
  lemma DownloadZeroHasNoSettings(store: Store, userId: int)
    ensures ProductSettings(store, 0).None?
    ensures ThresholdType(store, 0) == Earnings
    ensures ProductLookup(store, 0, userId).None?
  {
  }

  /** A negative download id reads the settings of its absolute value, as `absint` makes it. */
  lemma NegativeIdReadsPositive(store: Store, downloadId: int, userId: int)
    ensures ProductSettings(store, -downloadId) == ProductSettings(store, downloadId)
    ensures ThresholdType(store, -downloadId) == ThresholdType(store, downloadId)
    ensures ProductLookup(store, -downloadId, userId) == ProductLookup(store, downloadId, userId)
  {
  }
}
