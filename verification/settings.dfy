/**
 * The flat key-value settings the plugin reads and writes: the per-download
 * `_edd_commission_threshold_settings` post meta, the per-user
 * `edd_commission_thresholds_user_rate` user meta, and the shop-wide
 * `edd_commission_thresholds_default_rate` option. Every stored value is text.
 */
module Settings {
  import opened Wrappers

  /**
   * The `_edd_commission_threshold_settings` array of one download. Each key
   * may be unset: 'type' is "earnings" or "sales", 'user_id' the comma-joined
   * recipient ids and 'threshold' the comma-joined thresholds, index-aligned
   * with the ids.
   */
  datatype ThresholdSettings = ThresholdSettings(
    thresholdType: Option<string>,
    userIds: Option<string>,
    thresholds: Option<string>)
  {
    /** PHP `empty()` of the array: no key is set. */
    predicate IsEmpty() {
      thresholdType.None? && userIds.None? && thresholds.None?
    }
  }

  datatype Store = Store(
    products: map<int, ThresholdSettings>,
    userRates: map<int, string>,
    defaultRate: Option<string>)

  /**
   * `absint`: WordPress's meta functions turn every object id into its
   * absolute value before they read or write, and do nothing for id 0.
   */
  function MetaId(id: int): nat {
    if id < 0 then -id else id
  }

  /**
   * `get_post_meta($download_id, '_edd_commission_threshold_settings', true)`;
   * None when nothing is stored, and always for download id 0.
   */
  function ProductSettings(store: Store, downloadId: int): Option<ThresholdSettings> {
    if downloadId != 0 && MetaId(downloadId) in store.products then Some(store.products[MetaId(downloadId)])
    else None
  }

  /** `get_user_meta($user_id, 'edd_commission_thresholds_user_rate', true)`: "" when nothing is stored. */
  function UserRate(store: Store, userId: int): string {
    if userId in store.userRates then store.userRates[userId] else ""
  }

  /** PHP `empty()` of a string: "" and "0" are empty, every other string is not. */
  predicate EmptyString(s: string) {
    s == "" || s == "0"
  }

  /** PHP truthiness of an optional string; an unset value is `false`. */
  predicate Truthy(v: Option<string>) {
    v.Some? && !EmptyString(v.value)
  }
}
