/**
 * The save handler of the download edit screen
 * (`save_commissions_meta_box_threshold_fields`): it collects the threshold
 * rows and the recipient ids of the commissions form, joins them into the
 * two comma-separated strings of the settings array, and sanitizes every
 * threshold entry for the threshold type before storing the array.
 */
module Sanitizer {
  import opened Wrappers
  import opened Strings
  import opened Numbers
  import opened Settings
  import Resolver

  // ---------------------------------------------------------------------
  // One entry
  // ---------------------------------------------------------------------

  /** An entry the handler keeps: `is_numeric` and not below zero. */
  predicate ValidEntry(v: string) {
    IsNumeric(v) && ToNumber(v) >= 0.0
  }

  /** The decimal places an entry is rounded to: the currency's under "earnings", none otherwise. */
  function Precision(thresholdType: string, decimals: nat): nat {
    if thresholdType == Resolver.Earnings then decimals else 0
  }

  /**
   * The text `implode` gives the float `round(x, d)`: a numeric string that
   * casts back to exactly the rounded value.
   */
  function RoundText(x: real, d: nat): (r: string)
    requires x >= 0.0
    ensures IsNumeric(r) && ToNumber(r) == RoundTo(x, d)
    ensures r != "" && NoTrimSpace(r) && ',' !in r
  {
    var n := RoundUnits(x, d);
    RenderFixedRoundTrip(n, d);
    var s := RenderFixed(n, d);
    assert forall k :: 0 <= k < |s| ==> s[k] in s;
    s
  }

  /** The float 0, rounded at any precision, is stored as the text "0". */
  lemma RoundTextZero(d: nat)
    ensures RoundText(0.0, d) == "0"
  {
    ZeroScaled(d);
    assert RoundUnits(0.0, d) == 0;
    ZeroTimesPow10(d);
    RenderFixedWhole(0, d);
  }

  /**
   * A valid entry worth zero ("0.00", "0") is stored as "0" under every
   * type, which the download screen then shows as a blank cell.
   */
  lemma ZeroEntryStoredAsZero(thresholdType: string, v: string, decimals: nat)
    requires ValidEntry(v) && ToNumber(v) == 0.0
    ensures SanitizeEntry(thresholdType, v, decimals) == "0"
    ensures SanitizeEntryAsWritten(thresholdType, v, decimals) == "0"
  {
    RoundTextZero(decimals);
    RoundTextZero(0);
    RoundZero(0);
  }

  /**
   * One threshold entry as the handler means to store it: an invalid entry
   * (non-numeric or negative) becomes "", a valid one is rounded to the
   * type's precision. The "sales" branch, which every type other than
   * "earnings" takes, rounds entries below one first and then rounds again.
   */
  function SanitizeEntry(thresholdType: string, v: string, decimals: nat): (r: string)
    ensures r == "" <==> !ValidEntry(v)
    ensures r != "" ==> IsNumeric(r) && ToNumber(r) == RoundTo(ToNumber(v), Precision(thresholdType, decimals))
    ensures NoTrimSpace(r) && ',' !in r
  {
    if !ValidEntry(v) then ""
    else if thresholdType == Resolver.Earnings then RoundText(ToNumber(v), decimals)
    else
      var x := ToNumber(v);
      var once := if x < 1.0 then RoundTo(x, 0) else x;
      RoundToIdempotent(x, 0);
      RoundText(once, 0)
  }

  /**
   * The entry as the "earnings" branch computes it: an invalid entry is
   * blanked and then passed to `round()` anyway, which turns "" into 0.
   * Every other case agrees with SanitizeEntry.
   */
  function SanitizeEntryAsWritten(thresholdType: string, v: string, decimals: nat): (r: string)
    ensures ValidEntry(v) || thresholdType != Resolver.Earnings ==> r == SanitizeEntry(thresholdType, v, decimals)
    ensures !ValidEntry(v) && thresholdType == Resolver.Earnings ==> r != "" && IsNumeric(r) && ToNumber(r) == 0.0
    ensures !ValidEntry(v) && thresholdType == Resolver.Earnings ==> r == "0"
    ensures NoTrimSpace(r) && ',' !in r
  {
    if thresholdType == Resolver.Earnings then
      RoundZero(decimals);
      RoundTextZero(decimals);
      RoundText(if ValidEntry(v) then ToNumber(v) else 0.0, decimals)
    else SanitizeEntry(thresholdType, v, decimals)
  }

  /**
   * Which entry sanitizer a save applies: the handler as written, whose
   * "earnings" branch stores an invalid entry as a rounded 0, or the
   * corrected one, which blanks it as the "sales" branch does.
   */
  datatype Reading = AsWritten | Corrected

  /** The entry sanitizer of a reading. */
  function EntryFor(reading: Reading, thresholdType: string, v: string, decimals: nat): (r: string)
    ensures NoTrimSpace(r) && ',' !in r
  {
    match reading
    case AsWritten => SanitizeEntryAsWritten(thresholdType, v, decimals)
    case Corrected => SanitizeEntry(thresholdType, v, decimals)
  }

  // ---------------------------------------------------------------------
  // The threshold string
  // ---------------------------------------------------------------------

  /** Every entry sanitized in place. */
  function SanitizeAll(reading: Reading, thresholdType: string, values: seq<string>, decimals: nat): (r: seq<string>)
    ensures |r| == |values|
    ensures forall k :: 0 <= k < |r| ==> r[k] == EntryFor(reading, thresholdType, values[k], decimals)
  {
    if |values| == 0 then []
    else [EntryFor(reading, thresholdType, values[0], decimals)] + SanitizeAll(reading, thresholdType, values[1..], decimals)
  }

  /** The entries of the joined threshold string once '%' and '$' are removed. */
  function ThresholdValues(raw: string): seq<string> {
    Split(RemoveChar(RemoveChar(raw, '%'), '$'), ',')
  }

  /** Removing '%' and '$' before splitting removes them from each entry and keeps the entry count. */
  lemma ThresholdValuesByEntry(raw: string)
    ensures ThresholdValues(raw) == RemoveCharAll(RemoveCharAll(Split(raw, ','), '%'), '$')
  {
    SplitRemoveChar(raw, ',', '%');
    SplitRemoveChar(RemoveChar(raw, '%'), ',', '$');
  }

  /**
   * The sanitized threshold string: entry k of the result is entry k of the
   * submitted string, stripped of '%' and '$' and sanitized, and the result
   * has exactly as many entries as the submitted string.
   */
  function SanitizeThresholdList(reading: Reading, thresholdType: string, raw: string, decimals: nat): (r: string)
    ensures |Split(r, ',')| == |Split(raw, ',')|
    ensures forall k :: 0 <= k < |Split(raw, ',')| ==>
      Split(r, ',')[k] == EntryFor(reading, thresholdType, RemoveChar(RemoveChar(Split(raw, ',')[k], '%'), '$'), decimals)
  {
    var parts := SanitizeAll(reading, thresholdType, ThresholdValues(raw), decimals);
    ThresholdValuesByEntry(raw);
    TrimmedJoinReadsBack(parts);
    Trim(Join(parts, ','))
  }

  /** Sanitized entries joined with ',' and trimmed split back into the same entries. */
  lemma TrimmedJoinReadsBack(parts: seq<string>)
    requires |parts| >= 1
    requires forall k :: 0 <= k < |parts| ==> NoTrimSpace(parts[k]) && ',' !in parts[k]
    ensures Split(Trim(Join(parts, ',')), ',') == parts
  {
    JoinNoTrimSpace(parts, ',');
    TrimOfTrimmed(Join(parts, ','));
    SplitJoin(parts, ',');
  }

  // ---------------------------------------------------------------------
  // Saving a download
  // ---------------------------------------------------------------------

  /** The `edd_commission_threshold_settings` fields of the form: the type and one text per threshold row. */
  datatype SubmittedSettings = SubmittedSettings(thresholdType: Option<string>, thresholdRows: seq<string>)

  /**
   * The request the save handler reads: whether commissions are enabled on
   * the download, the threshold fields (None when not posted) and the user
   * id of every row of the commission rates form.
   */
  datatype ProductForm = ProductForm(
    commissionsEnabled: bool,
    settings: Option<SubmittedSettings>,
    recipientUserIds: seq<string>)

  /** The type the entries are sanitized for: the submitted type unless it is empty, else "earnings". */
  function SanitizeType(submitted: SubmittedSettings): (t: string)
    ensures submitted.thresholdType.Some? && !EmptyString(submitted.thresholdType.value) ==>
      t == submitted.thresholdType.value
    ensures submitted.thresholdType.None? || EmptyString(submitted.thresholdType.value) ==>
      t == Resolver.Earnings
  {
    match submitted.thresholdType
    case Some(t) => if EmptyString(t) then Resolver.Earnings else t
    case None => Resolver.Earnings
  }

  /**
   * The settings array stored for a download. Without threshold rows the
   * submitted array is stored as it came (its type only). With rows, each
   * recipient id and each row text goes through `sanitize_text_field`, and
   * the results are joined with ','; the threshold string is then sanitized
   * entry by entry unless the joined ids are empty ("" or "0"). A form
   * without the threshold fields stores `false`, which reads back like an
   * empty array.
   */
  function NewSettings(reading: Reading, submitted: Option<SubmittedSettings>, userIds: seq<string>,
                       decimals: nat): (s: ThresholdSettings)
    ensures submitted.None? ==> s.IsEmpty()
    ensures submitted.Some? ==> s.thresholdType == submitted.value.thresholdType
    ensures submitted.Some? && |submitted.value.thresholdRows| == 0 ==> s.userIds.None? && s.thresholds.None?
    ensures submitted.Some? && |submitted.value.thresholdRows| > 0 ==>
      s.userIds == Some(Join(SanitizeTextFields(userIds), ',')) && s.thresholds.Some? &&
      |Split(s.thresholds.value, ',')| == |Split(Join(SanitizeTextFields(submitted.value.thresholdRows), ','), ',')|
    ensures submitted.Some? && |submitted.value.thresholdRows| > 0 && EmptyString(Join(SanitizeTextFields(userIds), ',')) ==>
      s.thresholds == Some(Join(SanitizeTextFields(submitted.value.thresholdRows), ','))
  {
    match submitted
    case None => ThresholdSettings(None, None, None)
    case Some(form) =>
      if |form.thresholdRows| == 0 then ThresholdSettings(form.thresholdType, None, None)
      else
        var users := Join(SanitizeTextFields(userIds), ',');
        var thresholds := Join(SanitizeTextFields(form.thresholdRows), ',');
        ThresholdSettings(form.thresholdType, Some(users),
          Some(if EmptyString(users) then thresholds
               else SanitizeThresholdList(reading, SanitizeType(form), thresholds, decimals)))
  }

  /**
   * `save_commissions_meta_box_threshold_fields`: when the request may edit
   * the download (nonce, autosave, post type and `edit_product` checks,
   * folded into `mayEdit`) and commissions are enabled, the download's
   * settings are replaced; nothing else changes. `update_post_meta` stores
   * under the id's absolute value and stores nothing for id 0.
   */
  function SaveProductThresholds(reading: Reading, products: map<int, ThresholdSettings>, postId: int,
                                 mayEdit: bool, form: ProductForm, decimals: nat): (r: map<int, ThresholdSettings>)
    ensures postId == 0 || !mayEdit || !form.commissionsEnabled ==> r == products
    ensures postId != 0 && mayEdit && form.commissionsEnabled ==>
      MetaId(postId) in r && r[MetaId(postId)] == NewSettings(reading, form.settings, form.recipientUserIds, decimals)
    ensures forall id :: id != MetaId(postId) ==> (id in r <==> id in products)
    ensures forall id :: id != MetaId(postId) && id in r ==> r[id] == products[id]
  {
    if postId != 0 && mayEdit && form.commissionsEnabled then
      products[MetaId(postId) := NewSettings(reading, form.settings, form.recipientUserIds, decimals)]
    else products
  }
}

/** What a saved download resolves to, and the blank-versus-zero finding. */
module SanitizerFacts {
  import opened Wrappers
  import opened Strings
  import opened Numbers
  import opened Settings
  import opened Resolver
  import opened ResolverFacts
  import opened Sanitizer

  /** An entry after the handler's '%' and '$' removal. */
  function Cleaned(row: string): string {
    RemoveChar(RemoveChar(row, '%'), '$')
  }

  /** `sanitize_text_field` keeps a list free of commas, and leaves every piece trimmed. */
  lemma SanitizedCommaFree(parts: seq<string>)
    requires CommaFree(parts)
    ensures CommaFree(SanitizeTextFields(parts))
    ensures forall k :: 0 <= k < |parts| ==> Trimmed(SanitizeTextFields(parts)[k])
  {
    forall k | 0 <= k < |parts| ensures ',' !in SanitizeTextFields(parts)[k] {
      assert ',' !in parts[k];
      SanitizeTextFieldShape(parts[k]);
    }
  }

  /** The store after saving `form` on download `postId` with edit rights, under a reading of the sanitizer. */
  function Saved(reading: Reading, store: Store, postId: int, form: ProductForm, decimals: nat): Store {
    store.(products := SaveProductThresholds(reading, store.products, postId, true, form, decimals))
  }

  /**
   * Save then look up: after a download is saved with comma-free recipient
   * ids and threshold rows, a recipient found at position i of the ids reads
   * back row i, cleaned and sanitized for the submitted type by the
   * reading's entry sanitizer.
   */
  lemma SaveThenLookup(reading: Reading, store: Store, postId: int, form: ProductForm, decimals: nat,
                       userId: int, i: nat)
    requires postId != 0 && form.commissionsEnabled && form.settings.Some?
    requires |form.settings.value.thresholdRows| >= 1 && CommaFree(form.settings.value.thresholdRows)
    requires |form.recipientUserIds| >= 1 && CommaFree(form.recipientUserIds)
    requires !EmptyString(Join(SanitizeTextFields(form.recipientUserIds), ','))
    requires ArraySearch(userId, SanitizeTextFields(form.recipientUserIds)) == Some(i)
    requires i < |form.settings.value.thresholdRows|
    ensures ProductLookup(Saved(reading, store, postId, form, decimals), postId, userId)
         == Some(EntryFor(reading, SanitizeType(form.settings.value), Cleaned(SanitizeTextField(form.settings.value.thresholdRows[i])), decimals))
  {
    var ids := SanitizeTextFields(form.recipientUserIds);
    var ts := SavedEntries(reading, form.settings.value, decimals);
    SavedEntriesByRow(reading, form.settings.value, decimals);
    SavedLookupAligned(reading, store, postId, form, decimals, userId);
    SanitizedCommaFree(form.recipientUserIds);
    AlignedLookupAt(Saved(reading, store, postId, form, decimals), postId, userId,
                    form.settings.value.thresholdType, ids, ts, i);
  }

  /**
   * A lookup that reads aligned lists of trimmed ids gives the entry at the
   * recipient's position, when that entry holds no trim space.
   */
  lemma AlignedLookupAt(saved: Store, postId: int, userId: int, thresholdType: Option<string>,
                        ids: seq<string>, ts: seq<string>, i: nat)
    requires ProductLookup(saved, postId, userId) == ProductEntry(Some(AlignedSettings(thresholdType, ids, ts)), userId)
    requires |ids| >= 1 && |ts| >= 1 && CommaFree(ids) && CommaFree(ts)
    requires forall k :: 0 <= k < |ids| ==> Trimmed(ids[k])
    requires ArraySearch(userId, ids) == Some(i) && i < |ts| && NoTrimSpace(ts[i])
    ensures ProductLookup(saved, postId, userId) == Some(ts[i])
  {
    TrimAllOfTrimmed(ids);
    ProductEntryAtPosition(thresholdType, ids, ts, userId, i);
    NoTrimSpaceTrimmed(ts[i]);
    TrimOfTrimmed(ts[i]);
  }

  /** Looking a recipient up on the saved download reads the aligned lists the save stored. */
  lemma SavedLookupAligned(reading: Reading, store: Store, postId: int, form: ProductForm, decimals: nat,
                           userId: int)
    requires postId != 0 && form.commissionsEnabled && form.settings.Some?
    requires |form.settings.value.thresholdRows| >= 1 && CommaFree(form.settings.value.thresholdRows)
    requires !EmptyString(Join(SanitizeTextFields(form.recipientUserIds), ','))
    ensures ProductLookup(Saved(reading, store, postId, form, decimals), postId, userId)
         == ProductEntry(Some(AlignedSettings(form.settings.value.thresholdType, SanitizeTextFields(form.recipientUserIds),
                                              SavedEntries(reading, form.settings.value, decimals))), userId)
  {
    SavedSettingsAligned(reading, form, decimals);
  }

  /** The threshold entries a save stores, read back with `explode`. */
  function SavedEntries(reading: Reading, submitted: SubmittedSettings, decimals: nat): seq<string> {
    Split(SanitizeThresholdList(reading, SanitizeType(submitted),
                                Join(SanitizeTextFields(submitted.thresholdRows), ','), decimals), ',')
  }

  /**
   * With threshold rows and ids that are not empty once joined, a save
   * stores the sanitized ids and the entries `SavedEntries` reads back.
   */
  lemma SavedSettingsAligned(reading: Reading, form: ProductForm, decimals: nat)
    requires form.settings.Some?
    requires |form.settings.value.thresholdRows| >= 1
    requires !EmptyString(Join(SanitizeTextFields(form.recipientUserIds), ','))
    ensures NewSettings(reading, form.settings, form.recipientUserIds, decimals)
         == AlignedSettings(form.settings.value.thresholdType, SanitizeTextFields(form.recipientUserIds),
                            SavedEntries(reading, form.settings.value, decimals))
  {
    var sub := form.settings.value;
    JoinSplit(SanitizeThresholdList(reading, SanitizeType(sub), Join(SanitizeTextFields(sub.thresholdRows), ','), decimals), ',');
  }

  /**
   * Comma-free rows are read back one entry per row, entry k being row k put
   * through `sanitize_text_field`, cleaned and sanitized for the type; the
   * entries hold no comma.
   */
  lemma SavedEntriesByRow(reading: Reading, submitted: SubmittedSettings, decimals: nat)
    requires |submitted.thresholdRows| >= 1 && CommaFree(submitted.thresholdRows)
    ensures |SavedEntries(reading, submitted, decimals)| == |submitted.thresholdRows|
    ensures CommaFree(SavedEntries(reading, submitted, decimals))
    ensures forall k :: 0 <= k < |submitted.thresholdRows| ==>
      SavedEntries(reading, submitted, decimals)[k]
      == EntryFor(reading, SanitizeType(submitted), Cleaned(SanitizeTextField(submitted.thresholdRows[k])), decimals)
  {
    var rows := SanitizeTextFields(submitted.thresholdRows);
    SanitizedCommaFree(submitted.thresholdRows);
    SplitJoin(rows, ',');
    var t := SanitizeType(submitted);
    var raw := Join(rows, ',');
    assert Split(raw, ',') == rows;
    forall k | 0 <= k < |rows|
      ensures SavedEntries(reading, submitted, decimals)[k] == EntryFor(reading, t, Cleaned(rows[k]), decimals)
    {
      assert Split(SanitizeThresholdList(reading, t, raw, decimals), ',')[k]
          == EntryFor(reading, t, RemoveChar(RemoveChar(Split(raw, ',')[k], '%'), '$'), decimals);
    }
  }

  /**
   * The rate a saved download gives that recipient. A valid row resolves to
   * its rounded value under either reading. An invalid row leaves the rate
   * to the lower tiers, except under the handler as written with the
   * "earnings" type, where it is stored as 0 and wins with rate 0.
   */
  lemma SaveThenResolve(reading: Reading, store: Store, postId: int, form: ProductForm, decimals: nat,
                        userId: int, i: nat)
    requires postId != 0 && form.commissionsEnabled && form.settings.Some?
    requires |form.settings.value.thresholdRows| >= 1 && CommaFree(form.settings.value.thresholdRows)
    requires |form.recipientUserIds| >= 1 && CommaFree(form.recipientUserIds)
    requires !EmptyString(Join(SanitizeTextFields(form.recipientUserIds), ','))
    requires ArraySearch(userId, SanitizeTextFields(form.recipientUserIds)) == Some(i)
    requires i < |form.settings.value.thresholdRows|
    ensures var v := Cleaned(SanitizeTextField(form.settings.value.thresholdRows[i]));
      var saved := Saved(reading, store, postId, form, decimals);
      ValidEntry(v) ==>
        RecipientThresholdRate(saved, postId, userId)
        == RoundTo(ToNumber(v), Precision(SanitizeType(form.settings.value), decimals))
    ensures var v := Cleaned(SanitizeTextField(form.settings.value.thresholdRows[i]));
      var saved := Saved(reading, store, postId, form, decimals);
      !ValidEntry(v) && (reading.Corrected? || SanitizeType(form.settings.value) != Earnings) ==>
        RateSourceOf(saved, postId, userId)
        == Tier(Some(""), userId, UserRate(store, userId), DefaultThresholdRate(store))
    ensures var v := Cleaned(SanitizeTextField(form.settings.value.thresholdRows[i]));
      var saved := Saved(reading, store, postId, form, decimals);
      !ValidEntry(v) && reading.AsWritten? && SanitizeType(form.settings.value) == Earnings ==>
        RateSourceOf(saved, postId, userId).ProductTier? && RecipientThresholdRate(saved, postId, userId) == 0.0
  {
    var saved := Saved(reading, store, postId, form, decimals);
    SaveThenLookup(reading, store, postId, form, decimals, userId, i);
    SanitizedEntryResolves(reading, saved, store, postId, userId, SanitizeType(form.settings.value),
                           Cleaned(SanitizeTextField(form.settings.value.thresholdRows[i])), decimals);
  }

  /**
   * The rate a sanitized product entry gives: its rounded value; or, when it
   * was invalid, whatever the lower tiers of a store with the same user
   * rates and default give; or, for the "earnings" branch as written, 0.
   */
  lemma SanitizedEntryResolves(reading: Reading, saved: Store, store: Store, downloadId: int, userId: int,
                               thresholdType: string, v: string, decimals: nat)
    requires saved.userRates == store.userRates && saved.defaultRate == store.defaultRate
    requires ProductLookup(saved, downloadId, userId) == Some(EntryFor(reading, thresholdType, v, decimals))
    ensures ValidEntry(v) ==>
      RecipientThresholdRate(saved, downloadId, userId) == RoundTo(ToNumber(v), Precision(thresholdType, decimals))
    ensures !ValidEntry(v) && (reading.Corrected? || thresholdType != Earnings) ==>
      RateSourceOf(saved, downloadId, userId) == Tier(Some(""), userId, UserRate(store, userId), DefaultThresholdRate(store))
    ensures !ValidEntry(v) && reading.AsWritten? && thresholdType == Earnings ==>
      RateSourceOf(saved, downloadId, userId).ProductTier? && RecipientThresholdRate(saved, downloadId, userId) == 0.0
  {
    LookupResolves(saved, downloadId, userId, EntryFor(reading, thresholdType, v, decimals));
  }

  /**
   * The id and threshold lists come from two different form arrays: a
   * recipient whose position lies past the last threshold row has no
   * product entry after the save.
   */
  lemma SaveMisalignedLookup(reading: Reading, store: Store, postId: int, form: ProductForm, decimals: nat,
                             userId: int, i: nat)
    requires postId != 0 && form.commissionsEnabled && form.settings.Some?
    requires |form.settings.value.thresholdRows| >= 1 && CommaFree(form.settings.value.thresholdRows)
    requires |form.recipientUserIds| >= 1 && CommaFree(form.recipientUserIds)
    requires !EmptyString(Join(SanitizeTextFields(form.recipientUserIds), ','))
    requires ArraySearch(userId, SanitizeTextFields(form.recipientUserIds)) == Some(i)
    requires i >= |form.settings.value.thresholdRows|
    ensures ProductLookup(Saved(reading, store, postId, form, decimals), postId, userId) == None
  {
    var ids := SanitizeTextFields(form.recipientUserIds);
    var ts := SavedEntries(reading, form.settings.value, decimals);
    SavedEntriesByRow(reading, form.settings.value, decimals);
    SavedLookupAligned(reading, store, postId, form, decimals, userId);
    SanitizedCommaFree(form.recipientUserIds);
    AlignedLookupPastEnd(Saved(reading, store, postId, form, decimals), postId, userId,
                         form.settings.value.thresholdType, ids, ts, i);
  }

  /** A lookup that reads aligned lists finds no entry for a recipient past the last one. */
  lemma AlignedLookupPastEnd(saved: Store, postId: int, userId: int, thresholdType: Option<string>,
                             ids: seq<string>, ts: seq<string>, i: nat)
    requires ProductLookup(saved, postId, userId) == ProductEntry(Some(AlignedSettings(thresholdType, ids, ts)), userId)
    requires |ids| >= 1 && |ts| >= 1 && CommaFree(ids) && CommaFree(ts)
    requires forall k :: 0 <= k < |ids| ==> Trimmed(ids[k])
    requires ArraySearch(userId, ids) == Some(i) && i >= |ts|
    ensures ProductLookup(saved, postId, userId) == None
  {
    TrimAllOfTrimmed(ids);
    ProductEntryPastEnd(thresholdType, ids, ts, userId, i);
  }

  /**
   * A threshold row holding a ',' (say "1,000") becomes several entries, so
   * the stored list has more entries than rows and the rows after it no
   * longer line up with their recipients.
   */
  lemma CommaInRowMisaligns(reading: Reading, submitted: SubmittedSettings, userIds: seq<string>,
                            decimals: nat, k: nat)
    requires k < |submitted.thresholdRows| && ',' in submitted.thresholdRows[k]
    ensures var s := NewSettings(reading, Some(submitted), userIds, decimals);
      s.thresholds.Some? && |Split(s.thresholds.value, ',')| > |submitted.thresholdRows|
  {
    SanitizeTextFieldKeeps(submitted.thresholdRows[k], ',');
    SplitJoinWithSeparatorInPart(SanitizeTextFields(submitted.thresholdRows), ',', k);
  }

  /**
   * A submitted type of "" is sanitized as "earnings" but stored as "", and
   * the check compares every type other than "earnings" with the sales count.
   * Download id 0 stores nothing and reads as "earnings".
   */
  lemma EmptySubmittedTypeStoredAsIs(reading: Reading, store: Store, postId: int, form: ProductForm, decimals: nat)
    requires form.commissionsEnabled && form.settings.Some? && form.settings.value.thresholdType == Some("")
    ensures SanitizeType(form.settings.value) == Earnings
    ensures postId != 0 ==> ThresholdType(Saved(reading, store, postId, form, decimals), postId) == ""
    ensures postId == 0 ==> ThresholdType(Saved(reading, store, postId, form, decimals), postId) == Earnings
  {
  }

  /**
   * One save as the handler is written, end to end: recipients "7" and "9"
   * with "sales" thresholds "10" and "20" leave recipient 9 with a
   * threshold of 20.
   */
  lemma SaveExample(store: Store, form: ProductForm)
    requires form == ExampleForm()
    ensures RecipientThresholdRate(Saved(AsWritten, store, 42, form, 2), 42, 9) == 20.0
  {
    ExampleFormIds(form);
    ExampleFormRow(form);
    SaveResolvesRow(AsWritten, store, 42, form, 2, 9, 1, 20.0);
  }

  /** The submitted form of the example. */
  function ExampleForm(): ProductForm {
    ProductForm(true, Some(SubmittedSettings(Some("sales"), ["10", "20"])), ["7", "9"])
  }

  /** The example's ids: comma-free, non-empty once joined, with recipient 9 at position 1. */
  lemma ExampleFormIds(form: ProductForm)
    requires form == ExampleForm()
    ensures |form.recipientUserIds| >= 1 && CommaFree(form.recipientUserIds)
    ensures !EmptyString(Join(SanitizeTextFields(form.recipientUserIds), ','))
    ensures ArraySearch(9, SanitizeTextFields(form.recipientUserIds)) == Some(1)
  {
    ExampleIdsJoin();
    ExampleSanitized();
    ExampleIdsSearch();
    assert !EmptyString("7,9");
  }

  /** The example's rows: comma-free, with row 1 a valid entry worth 20 at whole-number precision. */
  lemma ExampleFormRow(form: ProductForm)
    requires form == ExampleForm()
    ensures form.commissionsEnabled && form.settings.Some?
    ensures |form.settings.value.thresholdRows| == 2 && CommaFree(form.settings.value.thresholdRows)
    ensures ValidEntry(Cleaned(SanitizeTextField(form.settings.value.thresholdRows[1])))
    ensures ToNumber(Cleaned(SanitizeTextField(form.settings.value.thresholdRows[1]))) == 20.0
    ensures RoundTo(20.0, Precision(SanitizeType(form.settings.value), 2)) == 20.0
  {
    ExampleIdsJoin();
    ExampleSanitized();
    ExampleRowClean();
    ExampleRowValue();
    ExampleType();
    RoundToExact(20.0, 20, 0);
  }

  /** `SaveThenResolve` for a valid row whose value is already at the save's precision. */
  lemma SaveResolvesRow(reading: Reading, store: Store, postId: int, form: ProductForm, decimals: nat,
                        userId: int, i: nat, x: real)
    requires postId != 0 && form.commissionsEnabled && form.settings.Some?
    requires |form.settings.value.thresholdRows| >= 1 && CommaFree(form.settings.value.thresholdRows)
    requires |form.recipientUserIds| >= 1 && CommaFree(form.recipientUserIds)
    requires !EmptyString(Join(SanitizeTextFields(form.recipientUserIds), ','))
    requires ArraySearch(userId, SanitizeTextFields(form.recipientUserIds)) == Some(i)
    requires i < |form.settings.value.thresholdRows|
    requires ValidEntry(Cleaned(SanitizeTextField(form.settings.value.thresholdRows[i])))
    requires ToNumber(Cleaned(SanitizeTextField(form.settings.value.thresholdRows[i]))) == x
    requires RoundTo(x, Precision(SanitizeType(form.settings.value), decimals)) == x
    ensures RecipientThresholdRate(Saved(reading, store, postId, form, decimals), postId, userId) == x
  {
    SaveThenResolve(reading, store, postId, form, decimals, userId, i);
  }

  /** "sales" is kept as submitted and rounds to whole numbers. */
  lemma ExampleType()
    ensures SanitizeType(SubmittedSettings(Some("sales"), ["10", "20"])) == "sales"
    ensures Precision("sales", 2) == 0
  {
  }

  /** The ids "7" and "9" and the rows "10" and "20" hold no comma; the ids join to "7,9". */
  lemma ExampleIdsJoin()
    ensures CommaFree(["7", "9"]) && CommaFree(["10", "20"])
    ensures Join(["7", "9"], ',') == "7,9"
  {
  }

  /** Recipient 9 is found at position 1 of the ids. */
  lemma ExampleIdsSearch()
    ensures ArraySearch(9, ["7", "9"]) == Some(1)
  {
    DigitsRoundTrip("7");
    DigitsRoundTrip("9");
    assert LooseEquals(9, "9") && !LooseEquals(9, "7");
    assert ["7", "9"][1..] == ["9"];
    assert ArraySearch(9, ["9"]) == Some(0);
  }

  /** `sanitize_text_field` leaves the ids "7" and "9" and the row "20" as they are. */
  lemma ExampleSanitized()
    ensures SanitizeTextFields(["7", "9"]) == ["7", "9"]
    ensures SanitizeTextField("20") == "20"
  {
    var ids := ["7", "9"];
    assert NoTrimSpace(ids[0]) && NoTrimSpace(ids[1]) && NoTrimSpace("20");
    SanitizeTextFieldsOfPlain(ids);
    SanitizeTextFieldOfPlain("20");
  }

  /** Cleaning leaves "20" as it is. */
  lemma ExampleRowClean()
    ensures Cleaned("20") == "20"
  {
    assert RemoveChar("", '%') == "";
    assert RemoveChar("0", '%') == "0";
    assert RemoveChar("20", '%') == "20";
    assert RemoveChar("", '$') == "";
    assert RemoveChar("0", '$') == "0";
    assert RemoveChar("20", '$') == "20";
  }

  /** "20" is a valid entry worth 20. */
  lemma ExampleRowValue()
    ensures ValidEntry("20") && ToNumber("20") == 20.0
  {
    DigitsRoundTrip("20");
    assert "20"[..1] == "2";
    assert DigitsValue("20") == 20;
  }

  /**
   * The corrected sanitizer: an invalid row is stored as "", which does not
   * stop the fallthrough, so the recipient's own rate applies.
   */
  lemma InvalidEntryFallsThrough(store: Store, downloadId: int, userId: int,
                                 thresholdType: string, v: string, decimals: nat)
    requires !ValidEntry(v)
    requires ProductLookup(store, downloadId, userId) == Some(SanitizeEntry(thresholdType, v, decimals))
    requires userId != 0 && UserRate(store, userId) != ""
    ensures RecipientThresholdRate(store, downloadId, userId) == ToNumber(UserRate(store, userId))
  {
  }

  /**
   * The handler as written: under "earnings" an invalid row is stored as a
   * rounded 0, an explicit zero rate that shadows the recipient's own rate.
   */
  lemma InvalidEarningsEntryAsWritten(store: Store, downloadId: int, userId: int, v: string, decimals: nat)
    requires !ValidEntry(v)
    requires ProductLookup(store, downloadId, userId) == Some(SanitizeEntryAsWritten(Earnings, v, decimals))
    requires userId != 0 && UserRate(store, userId) != ""
    ensures RateSourceOf(store, downloadId, userId).ProductTier?
    ensures RecipientThresholdRate(store, downloadId, userId) == 0.0
  {
  }

  /**
   * A row of digits typed with a trailing space would fail `is_numeric`, but
   * `sanitize_text_field` trims it first, so the save keeps its value under
   * every type and either reading.
   */
  lemma TrailingSpaceRowKept(reading: Reading, thresholdType: string, w: string, decimals: nat)
    requires |w| >= 1 && AllDigits(w)
    ensures !ValidEntry(w + " ")
    ensures Cleaned(SanitizeTextField(w + " ")) == w && ValidEntry(w)
    ensures EntryFor(reading, thresholdType, Cleaned(SanitizeTextField(w + " ")), decimals) != ""
  {
    LeadingSpaceOnly(w);
    DigitsRoundTrip(w);
    DigitsSanitizeClean(w);
    ValidEntryKept(reading, thresholdType, w, decimals);
  }

  /** Digits followed by one space come out of the sanitizer and the cleaning as the digits. */
  lemma DigitsSanitizeClean(w: string)
    requires |w| >= 1 && AllDigits(w)
    ensures Cleaned(SanitizeTextField(w + " ")) == w
  {
    DigitsSanitize(w);
    assert '%' !in w && '$' !in w by {
      assert !IsDigit('%') && !IsDigit('$');
    }
    RemoveAbsent(w, '%');
    RemoveAbsent(w, '$');
  }

  /** A valid entry is never blanked, under either reading. */
  lemma ValidEntryKept(reading: Reading, thresholdType: string, v: string, decimals: nat)
    requires ValidEntry(v)
    ensures EntryFor(reading, thresholdType, v, decimals) != ""
  {
  }

  /** Digits followed by one space sanitize to the digits. */
  lemma DigitsSanitize(w: string)
    requires |w| >= 1 && AllDigits(w)
    ensures SanitizeTextField(w + " ") == w
  {
    DigitsSpaceCollapsed(w);
    SanitizeTextFieldOfCollapsed(w + " ");
    DigitsSpaceTrim(w);
  }

  /** Digits followed by one space hold no run of white space. */
  lemma DigitsSpaceCollapsed(w: string)
    requires AllDigits(w)
    ensures Collapsed(w + " ")
  {
    var s := w + " ";
    assert forall k :: 0 <= k < |w| ==> s[k] == w[k];
  }

  /** `trim` drops the one space after a run of digits. */
  lemma DigitsSpaceTrim(w: string)
    requires |w| >= 1 && AllDigits(w)
    ensures Trim(w + " ") == w
  {
    var s := w + " ";
    assert s[..|s| - 1] == w;
    assert TrimRight(s) == TrimRight(w);
    NoTrimSpaceTrimmed(w);
    TrimOfTrimmed(w);
  }

  /**
   * "abc" is not numeric, so it is an invalid entry: the corrected sanitizer
   * blanks it under every type, while the "earnings" branch as written
   * stores a text worth 0.
   */
  lemma LettersAreInvalid(thresholdType: string, decimals: nat)
    ensures !ValidEntry("abc")
    ensures SanitizeEntry(thresholdType, "abc", decimals) == ""
    ensures SanitizeEntryAsWritten(Earnings, "abc", decimals) != ""
    ensures ToNumber(SanitizeEntryAsWritten(Earnings, "abc", decimals)) == 0.0
  {
    var s := "abc";
    assert SkipSpace(s, 0) == 0;
    assert DigitsEnd(s, 0) == 0;
    assert ScanNumber(s) == None;
  }

  /** A negative number is an invalid entry too, and the corrected sanitizer blanks it. */
  lemma NegativeIsInvalid(thresholdType: string, decimals: nat)
    ensures IsNumeric("-5") && !ValidEntry("-5")
    ensures SanitizeEntry(thresholdType, "-5", decimals) == ""
  {
    NegativeDigitsRoundTrip("5");
    assert DigitsValue("5") == DigitsValue("") * 10 + DigitValue('5');
    assert "-" + "5" == "-5";
  }
}
