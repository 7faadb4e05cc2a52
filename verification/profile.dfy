/**
 * The user profile screen's save handler (`save_user_profile_fields`): a
 * shop manager sets or clears a user's own threshold rate.
 */
module Profile {
  import opened Wrappers
  import opened Strings
  import opened Settings

  /**
   * The user rate map after a profile save. Without `edit_user` on the user,
   * or without `manage_shop_settings`, nothing changes. Otherwise a submitted
   * rate that is not empty ("" and "0" are) is stored through
   * `sanitize_text_field`, and an empty or missing one deletes the user's
   * rate. The emptiness test reads the text as submitted, so a rate of only
   * spaces is stored as "". Other users keep theirs.
   */
  function SaveUserProfile(userRates: map<int, string>, userId: int, canEditUser: bool,
                           canManageShop: bool, submitted: Option<string>): (r: map<int, string>)
    ensures !canEditUser || !canManageShop ==> r == userRates
    ensures canEditUser && canManageShop && submitted.Some? && !EmptyString(submitted.value) ==>
      userId in r && r[userId] == SanitizeTextField(submitted.value)
    ensures canEditUser && canManageShop && (submitted.None? || EmptyString(submitted.value)) ==>
      userId !in r
    ensures forall u :: u != userId ==> (u in r <==> u in userRates)
    ensures forall u :: u != userId && u in r ==> r[u] == userRates[u]
  {
    if !canEditUser then userRates
    else if !canManageShop then userRates
    else if submitted.Some? && !EmptyString(submitted.value) then userRates[userId := SanitizeTextField(submitted.value)]
    else userRates - {userId}
  }
}

/** How a profile save changes the rate the resolver picks. */
module ProfileFacts {
  import opened Wrappers
  import opened Strings
  import opened Settings
  import opened Resolver
  import opened Profile

  /** The store after a profile save by a shop manager who may edit the user. */
  function AfterProfileSave(store: Store, userId: int, submitted: Option<string>): Store {
    store.(userRates := SaveUserProfile(store.userRates, userId, true, true, submitted))
  }

  /**
   * A submitted rate that is not empty is stored sanitized. On every download
   * that has no non-empty product entry for the user, the sanitized rate is
   * the user's threshold when it is not ""; when sanitizing leaves "" (a rate
   * of only spaces), resolution goes on as if the user had no rate.
   */
  lemma SavedRateIsUsed(store: Store, userId: int, rate: string, downloadId: int)
    requires userId != 0 && !EmptyString(rate)
    requires ProductLookup(store, downloadId, userId) in {None, Some("")}
    ensures SanitizeTextField(rate) != "" ==>
      RateSourceOf(AfterProfileSave(store, userId, Some(rate)), downloadId, userId) == UserTier(SanitizeTextField(rate))
    ensures SanitizeTextField(rate) == "" ==>
      RateSourceOf(AfterProfileSave(store, userId, Some(rate)), downloadId, userId)
      == Tier(ProductLookup(store, downloadId, userId), userId, "", DefaultThresholdRate(store))
  {
    var after := AfterProfileSave(store, userId, Some(rate));
    assert ProductLookup(after, downloadId, userId) == ProductLookup(store, downloadId, userId);
  }

  /**
   * A rate of only spaces passes the emptiness test but is stored as "", so
   * the shop default applies when it is set.
   */
  lemma BlankRateFallsToDefault(store: Store, userId: int, downloadId: int)
    requires userId != 0 && Truthy(store.defaultRate)
    requires ProductLookup(store, downloadId, userId) in {None, Some("")}
    ensures RateSourceOf(AfterProfileSave(store, userId, Some("   ")), downloadId, userId)
         == DefaultTier(store.defaultRate.value)
  {
    assert OnlyTrimSpace("   ");
    SanitizeTextFieldOfBlank("   ");
    SavedRateIsUsed(store, userId, "   ", downloadId);
  }

  /**
   * Submitting "0" deletes the user's rate rather than storing a zero: the
   * shop default then applies when it is set.
   */
  lemma ZeroRateFallsToDefault(store: Store, userId: int, downloadId: int)
    requires userId != 0 && Truthy(store.defaultRate)
    requires ProductLookup(store, downloadId, userId) in {None, Some("")}
    ensures RateSourceOf(AfterProfileSave(store, userId, Some("0")), downloadId, userId)
         == DefaultTier(store.defaultRate.value)
  {
    var after := AfterProfileSave(store, userId, Some("0"));
    assert ProductLookup(after, downloadId, userId) == ProductLookup(store, downloadId, userId);
    assert UserRate(after, userId) == "";
  }

  /** A profile save never changes what another user resolves to. */
  lemma ProfileSaveIsLocal(store: Store, userId: int, other: int, downloadId: int,
                           canEditUser: bool, canManageShop: bool, submitted: Option<string>)
    requires other != userId
    ensures var after := store.(userRates := SaveUserProfile(store.userRates, userId, canEditUser, canManageShop, submitted));
      RateSourceOf(after, downloadId, other) == RateSourceOf(store, downloadId, other)
  {
    var after := store.(userRates := SaveUserProfile(store.userRates, userId, canEditUser, canManageShop, submitted));
    assert UserRate(after, other) == UserRate(store, other);
  }
}
