# Commission thresholds: a Dafny model of the decision core

The plugin `edd-commission-thresholds.php` holds back a commission until the
recipient has reached a threshold on a download: a minimum of earnings or of
sales. This project models the plugin's decision core as pure Dafny
functions over an immutable settings store, and proves properties of them.
The core covers:

- **Threshold resolution.** `get_recipient_threshold_rate` picks the first
  tier that yields a value:
  - the download's per-recipient entry, stored positionally in two
    index-aligned comma-joined strings;
  - the recipient's own user rate;
  - the shop-wide default;
  - otherwise 0.

  `get_commission_threshold_type` gives "earnings" when no type is stored.
- **The record-or-skip decision.** `check_commission_threshold` compares the
  download's earnings or sales total with the resolved rate.
- **The save handler of the download screen.** It joins the recipient ids and
  threshold rows, strips `%` and `$`, sanitizes every entry by type and
  stores the result. The save is modelled under two readings (`Reading`):
  `AsWritten`, the handler as the code stands, and `Corrected`, whose
  "earnings" branch blanks invalid entries as the "sales" branch does.
- **The two positional readers.** These are the commissions meta box cell and
  `get_recipients`.
- **The profile save.** It stores or deletes a user's own rate.

The store (module `Settings`) has three parts:

- per-download settings arrays with optional `type`, `user_id` and
  `threshold` strings;
- a map from user id to rate text;
- an optional default.

Unset keys are `None`, so PHP's `null`, `""` and `"0"` stay distinct.

PHP's conversions are written out as small functions under PHP 7 semantics
(module `Numbers`):

- `is_numeric` allows leading whitespace and an exponent.
- The `(float)` cast takes the longest numeric prefix.
- `intval` truncates.
- `round()` rounds half away from zero.
- A rounded float is rendered as decimal text when `implode` joins it.

Numbers are exact `real`s. String splitting, joining, trimming and character
removal are explicit too (module `Strings`). So is WordPress's
`sanitize_text_field` on threshold rows, recipient ids and user rates. It
turns every run of spaces, tabs and line breaks into one space and then trims.

Every `apply_filters` is the identity and every `do_action` a no-op. The
download's earnings and sales totals, the currency's decimal count and the
capability checks are parameters. WordPress's post-meta functions pass the
download id through `absint` and do nothing for id 0; the store follows them
(`Settings.MetaId`).

Four behaviours of the code that a reader might not expect:

- **A download without settings is not always recorded.** The `true` set for
  missing settings is overwritten by the comparison. The comparison uses the
  default type "earnings" and the user's or the shop's rate.
  See `ResolverFacts.NoSettingsDoesNotForceRecording`.
- **The resolved rate can be negative.** User rates are stored unvalidated,
  so a user rate of "-5" resolves to -5. See
  `ResolverFacts.NegativeUserRateResolves`.
- **An empty product entry is not always the same as an unset one.** With
  user id 0, an empty entry blocks the shop default and the rate is 0. See
  `ResolverFacts.EmptyEntryWithoutUserSkipsDefault`.
- **Invalid entries are not always blanked.** Under "earnings" the save
  handler turns an invalid entry into "0" rather than "". The `AsWritten`
  reading of the save does exactly this, and `SanitizerFacts.SaveThenResolve`
  shows that such a row then wins with rate 0. The `Corrected` reading is the
  fix (first finding below).

## Model

| member | source | states |
|---|---|---|
| Resolver.ThresholdType | edd-commission-thresholds.php:506-510 | the stored type text whenever the key is set, whatever it says; "earnings" when there are no settings or no type key |
| ResolverFacts.DownloadZeroHasNoSettings | edd-commission-thresholds.php:506-510 | download id 0 reads no post meta, whatever the store holds under key 0: its type is "earnings" and it has no product entry |
| ResolverFacts.NegativeIdReadsPositive | edd-commission-thresholds.php:506-510 | a negative download id reads the settings, type and product entry of its absolute value |
| Resolver.ArraySearch | edd-commission-thresholds.php:540 | the result is the first position whose entry loosely equals the id (numeric-prefix cast); no earlier entry matches; `false` exactly when no entry matches |
| ResolverFacts.LooseMatchReadsPrefix | edd-commission-thresholds.php:540 | the loose `==` of `array_search` casts the entry: "7abc" matches id 7, and "" matches id 0 |
| Resolver.RatePosition | edd-commission-thresholds.php:538-543 | with no loosely matching id the position is 0 (`false` as an array key); otherwise it is a matching position with no match before it |
| Resolver.ProductEntry | edd-commission-thresholds.php:535-545 | an entry exists only for a non-empty settings array with a 'threshold' key, and exactly when the recipient's position lies inside the trimmed threshold list; it is the trimmed entry at that position |
| Resolver.ProductLookup | edd-commission-thresholds.php:533-546 | download id 0, a download without settings, and an empty settings array give no product entry; otherwise the entry is the product entry of the stored settings |
| Resolver.ResolveRateText | edd-commission-thresholds.php:531-565 | the code's sequence of null/"" tests yields exactly the text of the first applicable tier of the declarative order `Tier` |
| Resolver.RecipientThresholdRate | edd-commission-thresholds.php:530-568 | the returned rate is the float cast of the first applicable tier's text, or 0 when no tier applies |
| Resolver.CheckCommissionThreshold | edd-commission-thresholds.php:159-198 | an unaccepted payment argument gives false; otherwise the commission is recorded exactly when earnings (type "earnings") or sales (any other type) reach the resolved rate |
| ResolverFacts.ExplicitZeroStopsFallthrough | edd-commission-thresholds.php:542-565 | a product entry "0" is the winning tier and resolves to 0 even when user and shop rates exist |
| ResolverFacts.LookupResolves | edd-commission-thresholds.php:542-565 | a non-empty product entry is cast to the rate; an empty one leaves the choice to the user and default tiers |
| ResolverFacts.EmptyEntryFallsThrough | edd-commission-thresholds.php:549-555 | an empty product entry falls through to a non-zero user's non-empty rate |
| ResolverFacts.DefaultAppliesWhenNothingElse | edd-commission-thresholds.php:558-560 | with no product entry and no user rate, a truthy shop default is the rate |
| ResolverFacts.EmptyEntryWithoutUserSkipsDefault | edd-commission-thresholds.php:549-565 | with user id 0 an empty product entry skips the default tier, which tests for null only, and the rate is 0 |
| ResolverFacts.NegativeUserRateResolves | edd-commission-thresholds.php:549-567 | a user rate "-5" resolves to -5: the resolved rate is not always non-negative |
| ResolverFacts.AlignedLists | edd-commission-thresholds.php:538-539 | comma-free id and threshold lists joined with ',' read back as the trimmed lists |
| ResolverFacts.ProductEntryAtPosition | edd-commission-thresholds.php:538-544 | the product entry is the trimmed threshold at the recipient's first position in the id list |
| ResolverFacts.ProductEntryPastEnd | edd-commission-thresholds.php:542-544 | a position past the end of the threshold list gives no product entry |
| ResolverFacts.ProductEntryAbsentRecipient | edd-commission-thresholds.php:540-544 | a recipient missing from the id list reads the first threshold |
| ResolverFacts.CheckIgnoresIncomingDecision | edd-commission-thresholds.php:173-193 | the incoming `$record_commission` never changes the decision |
| ResolverFacts.EarningsThresholdInclusive | edd-commission-thresholds.php:189-190 | under "earnings", earnings equal to the rate are recorded and earnings below it are skipped |
| ResolverFacts.OtherTypesCompareSales | edd-commission-thresholds.php:191-193 | under any type other than "earnings" the decision is `sales >= rate` |
| ResolverFacts.CheckMonotone | edd-commission-thresholds.php:189-193 | higher earnings and sales never turn a recorded commission into a skipped one |
| ResolverFacts.NoSettingsDoesNotForceRecording | edd-commission-thresholds.php:171-193 | a download without settings and zero earnings, for a recipient with user rate "5", is skipped |
| Numbers.DigitsRoundTrip | edd-commission-thresholds.php:567 | a digit string is numeric and its `(float)` cast is the number it spells |
| Numbers.CastReadsDigitPrefix | edd-commission-thresholds.php:567 | the `(float)` cast reads the numeric prefix only: digits followed by a character that cannot continue a number cast to the digits' value, and the string is not numeric |
| Numbers.LeadingSpaceOnly | edd-commission-thresholds.php:423 | `is_numeric` accepts " 5" but not "5 ", and both cast to 5 |
| Numbers.IntVal | edd-commission-thresholds.php:587 | `intval` of a string is the integer part of its `(float)` cast, truncated toward zero |
| Numbers.RoundHalfAway | edd-commission-thresholds.php:424 | the rounded integer is within one half of the value, halves going away from zero |
| Numbers.RoundTo | edd-commission-thresholds.php:424 | `round(x, d)` scaled by 10^d is a whole number within one half of x scaled; a non-negative x rounds to a non-negative value |
| Numbers.RoundToIdempotent | edd-commission-thresholds.php:432-435 | rounding an already rounded value changes nothing, so the "sales" branch's double rounding equals one rounding |
| Numbers.RenderFixed | edd-commission-thresholds.php:443 | the text a rounded value is joined as starts and ends with a digit, holds only digits and at most one '.', has no trailing fraction zero, and has no leading zero before the whole part |
| Numbers.RenderFixedWhole | edd-commission-thresholds.php:443 | a whole value prints as its plain decimal digits with no '.', whatever the decimal count; zero prints as "0" |
| Numbers.RenderFixedRoundTrip | edd-commission-thresholds.php:443 | the text a rounded value is joined as is numeric and casts back to exactly that value |
| Numbers.NegativeDigitsRoundTrip | edd-commission-thresholds.php:423 | "-" before a digit string is numeric and casts to the negated value |
| Strings.Split | edd-commission-thresholds.php:416 | `explode` gives one more piece than there are separators, none containing the separator |
| Strings.Join | edd-commission-thresholds.php:404-405 | `implode` is as long as the parts plus one separator per gap, and holds one separator per gap more than the parts |
| Strings.SplitJoin | edd-commission-thresholds.php:404-405 | splitting a join of separator-free pieces gives the pieces back |
| Strings.SplitJoinWithSeparatorInPart | edd-commission-thresholds.php:405-416 | when a joined part itself holds the separator, splitting the join yields more pieces than there were parts |
| Strings.JoinSplit | edd-commission-thresholds.php:416-443 | joining the pieces of a split gives the text back |
| Strings.SplitRemoveChar | edd-commission-thresholds.php:413-416 | removing a character before splitting is removing it from every piece |
| Strings.RemoveChar | edd-commission-thresholds.php:413-414 | `str_replace` of one character removes every occurrence of it and keeps every other character, each as often as before |
| Strings.TrimSlice | edd-commission-thresholds.php:444 | `trim` keeps the slice of the text between a leading and a trailing run of trim space; the kept slice neither starts nor ends with trim space |
| Strings.SanitizeTextField | edd-commission-thresholds.php:396 | `sanitize_text_field` neither starts nor ends with trim space |
| Strings.SanitizeTextFieldShape | edd-commission-thresholds.php:396 | the sanitized text holds no tab or line break and no two spaces in a row, and every other character in it comes from the input |
| Strings.CollapseSpaceShape | edd-commission-thresholds.php:401 | collapsing white-space runs leaves no tab, line break or double space; it starts with a space exactly where the input starts with white space; it keeps every other character as often as before |
| Strings.CollapseSpaceKeepsOrder | edd-commission-thresholds.php:401 | collapsing white-space runs keeps the characters outside the runs in their original order |
| Strings.SanitizeTextFieldOfCollapsed | edd-commission-thresholds.php:396 | on a text without white-space runs the sanitizer is just `trim` |
| Strings.SanitizeTextFieldIdempotent | edd-commission-thresholds.php:396 | sanitizing twice is sanitizing once |
| Strings.SanitizeTextFieldOfPlain | edd-commission-thresholds.php:401 | a text without trim space (a plain id such as "7") is left as it is |
| Strings.SanitizeTextFieldOfBlank | edd-commission-thresholds.php:490 | a text of white space only sanitizes to "" |
| Strings.SanitizeTextFieldKeeps | edd-commission-thresholds.php:396 | a character that is not white space, such as ',', survives the sanitizer |
| Strings.TrimIdempotent | edd-commission-thresholds.php:538 | trimming twice is trimming once |
| Sanitizer.SanitizeEntry | edd-commission-thresholds.php:418-438 | an entry becomes "" exactly when it is non-numeric or negative; otherwise it becomes numeric text equal to the entry rounded to the currency's decimals (earnings) or to a whole number (any other type) |
| Sanitizer.SanitizeEntryAsWritten | edd-commission-thresholds.php:422-425 | as the "earnings" branch is written, an invalid entry becomes a numeric text of value 0, not ""; all other entries agree with SanitizeEntry |
| Sanitizer.ThresholdValuesByEntry | edd-commission-thresholds.php:413-416 | stripping '%' and '$' then splitting is splitting then stripping each entry |
| Sanitizer.RoundTextZero | edd-commission-thresholds.php:424-443 | a zero rounded to any number of decimals is joined as "0" |
| Sanitizer.ZeroEntryStoredAsZero | edd-commission-thresholds.php:422-443 | a valid entry worth zero ("0.00", "0") is stored as "0" under either reading |
| Sanitizer.SanitizeThresholdList | edd-commission-thresholds.php:413-444 | the stored string has exactly as many entries as the submitted one, entry k being submitted entry k stripped of '%' and '$' and sanitized by the reading's entry sanitizer |
| Sanitizer.SanitizeType | edd-commission-thresholds.php:388 | entries are sanitized for the submitted type unless it is missing, "" or "0", which give "earnings" |
| Sanitizer.NewSettings | edd-commission-thresholds.php:387-447 | the stored array keeps the submitted type; without rows it has no ids or thresholds; with rows it stores the `sanitize_text_field`-ed ids joined with ',' and a threshold string with one entry per entry of the sanitized rows joined with ','; that string is stored unsanitized when the joined ids are "" or "0" |
| Sanitizer.SaveProductThresholds | edd-commission-thresholds.php:381-447 | without edit rights, with commissions disabled, or for post id 0 nothing changes; otherwise only the settings stored under the post id's absolute value are replaced, by the settings the reading computes |
| SanitizerFacts.SaveThenLookup | edd-commission-thresholds.php:395-447 | after a save, a recipient at position i of the sanitized ids reads back row i, passed through `sanitize_text_field`, stripped of '%' and '$', and sanitized by the reading's entry sanitizer (as written: "0" for an invalid "earnings" row) |
| SanitizerFacts.SaveThenResolve | edd-commission-thresholds.php:395-447 | after a save, a row that is valid once `sanitize_text_field`-ed and stripped resolves to its rounded value; an invalid row leaves the rate to the lower tiers, except in the save as written under "earnings", where it wins as the product tier with rate 0 |
| SanitizerFacts.SanitizedEntryResolves | edd-commission-thresholds.php:418-438 | the rate a stored entry gives: the rounded value of a valid row; for an invalid row the lower tiers, or 0 under the "earnings" branch as written |
| SanitizerFacts.SaveExample | edd-commission-thresholds.php:395-447 | saving, as the handler is written, recipients "7" and "9" with "sales" rows "10" and "20" gives recipient 9 a threshold of 20 on that download |
| SanitizerFacts.TrailingSpaceRowKept | edd-commission-thresholds.php:396-425 | digits typed with a trailing space fail `is_numeric`, but `sanitize_text_field` trims the space first, so the stored entry is not blanked under any type or reading |
| SanitizerFacts.SaveMisalignedLookup | edd-commission-thresholds.php:395-405 | when the ids outnumber the threshold rows, a recipient past the last row has no product entry after the save |
| SanitizerFacts.CommaInRowMisaligns | edd-commission-thresholds.php:395-416 | a threshold row containing ',' keeps it through `sanitize_text_field` and becomes several entries, so the stored list has more entries than there are rows |
| SanitizerFacts.EmptySubmittedTypeStoredAsIs | edd-commission-thresholds.php:387-388 | a submitted type "" is sanitized as "earnings" but stored as "", which the check treats as a sales type; for download id 0 nothing is stored and the type reads as "earnings" |
| SanitizerFacts.InvalidEntryFallsThrough | edd-commission-thresholds.php:422-425 | with the blanking sanitizer an invalid row lets the recipient's own rate apply |
| SanitizerFacts.InvalidEarningsEntryAsWritten | edd-commission-thresholds.php:422-425 | as written, an invalid "earnings" row is the winning tier and resolves to 0, shadowing the recipient's own rate |
| SanitizerFacts.LettersAreInvalid | edd-commission-thresholds.php:422-425 | "abc" is not numeric: the corrected sanitizer blanks it under every type, the "earnings" branch as written stores a text worth 0 |
| SanitizerFacts.NegativeIsInvalid | edd-commission-thresholds.php:423-425 | "-5" is numeric but negative, hence invalid, and the corrected sanitizer blanks it |
| Profile.SaveUserProfile | edd-commission-thresholds.php:483-495 | without either capability nothing changes; a raw rate that is not empty ("" or "0") is stored after `sanitize_text_field`; an empty or missing one deletes the rate; no other user changes |
| ProfileFacts.SavedRateIsUsed | edd-commission-thresholds.php:489-560 | where the download has no non-empty entry for the user, a saved rate becomes the user's tier when it sanitizes to a non-empty text; when it sanitizes to "", the user tier is skipped as for no rate |
| ProfileFacts.BlankRateFallsToDefault | edd-commission-thresholds.php:489-560 | a rate of spaces passes the emptiness test, is stored as "", and the shop default applies |
| ProfileFacts.ZeroRateFallsToDefault | edd-commission-thresholds.php:489-493 | submitting "0" deletes the user's rate, so the shop default applies |
| ProfileFacts.ProfileSaveIsLocal | edd-commission-thresholds.php:483-495 | a profile save never changes another user's resolved tier |
| Decoders.MetaBoxThreshold | edd-commission-thresholds.php:245-254 | as written, the cell is blank when the stored string is "" or "0", and otherwise the trimmed entry of row i or "" |
| Decoders.MetaBoxThresholdIntended | edd-commission-thresholds.php:248-251 | the cell is the row's entry of the resolver's trimmed threshold list, or "" when out of range |
| DecoderFacts.ZeroRowShownBlank | edd-commission-thresholds.php:422-443 | a row "0.00" under "earnings" is stored as "0", and a lone stored "0" then shows a blank meta-box cell (line 250) |
| DecoderFacts.MetaBoxShowsResolvedEntry | edd-commission-thresholds.php:245-254 | in a recipient's row the intended cell shows exactly the product entry the resolver uses for that recipient |
| DecoderFacts.MetaBoxHidesLoneZero | edd-commission-thresholds.php:250 | a stored threshold "0" gives a blank cell as written, and "0" when read as intended |
| Decoders.Recipients | edd-commission-thresholds.php:579-589 | no recipients when 'user_id' is unset; otherwise one `intval` per comma-separated piece |
| DecoderFacts.RecipientsRoundTrip | edd-commission-thresholds.php:587 | ids written in decimal and joined with ',' are read back unchanged |
| DecoderFacts.EmptyIdStringGivesUserZero | edd-commission-thresholds.php:584-587 | an empty 'user_id' string yields one recipient, user 0 |

## Left out

- HTML output callbacks (lines 137-145, 230-234, 265-353, 460-472). These are presentation only.
- Settings registration (649-668), text-domain loading (615-638), and the singleton, bootstrap and activation code (44-127, 680-703). These are host glue and file I/O.
- The nonce, autosave, bulk-edit, post-type and `edit_product` guards of the download save (368-383). They are folded into one boolean, `mayEdit`.
- Construction of the payment and download objects and the EDD stats calls (162, 178, 181). The earnings total (after its `(float)` cast) and the sales total (after its `(int)` cast) are inputs. A numeric payment id is taken to name a payment.
- The payment note (214-219). It depends on host name lookups.
- Strings.SanitizeTextField: only the white-space collapse and the trim of WordPress's `sanitize_text_field` are modelled. Tag stripping, the removal of `%xx` octets and the check for invalid UTF-8 are not. Rows and ids that hold '<' or a percent octet are therefore stored unchanged in the model. These cases are rare in numeric rows and ids.
- Float representation. Values are exact reals, and a rounded float is rendered as exact decimal text. PHP's 14-significant-digit rendering, its exponent notation for large values, and binary rounding error are not modelled.
- PHP 8 behaviour. The model follows PHP 7: loose int/string comparison, and `round('')` giving 0.
- Submitted settings keys other than `type` and the threshold rows are not modelled. The leftover `thresholds` key is one of them; no reader looks at it.
- Sanitizer.SaveProductThresholds: a form without the threshold fields stores `false`. The model stores an empty settings array, which every reader treats the same way.
- The `(int)` cast of the recipient id in the check (line 187). Recipient ids are integers in the model.
- Settings.UserRate and Profile.SaveUserProfile use the user id as given. WordPress's user-meta functions pass it through `absint` as well, so a negative recipient id (an `intval` of "-5") would read user 5's rate. The model does not follow that. The resolver reads user meta only for a non-zero id (line 549), and the profile hooks pass real user ids.
- `update_post_meta` on a post revision writes to the revision's parent. Revisions are host state and are not modelled.
- Numbers.IntVal: integers are unbounded. PHP's `intval` (line 587) saturates at PHP_INT_MAX and PHP_INT_MIN on 64-bit builds, and the model's ids never do. Ids that large are not realistic user ids.

## Findings

| source | as written | input that shows it | evidently intended | confidence | as-written member | corrected member |
|---|---|---|---|---|---|---|
| edd-commission-thresholds.php:422-425 | under "earnings" an invalid entry is set to "" and then still passed to `round()`, which stores "0" | type "earnings", threshold row "abc" for a recipient whose own rate is "100": the stored entry is "0", the resolved rate 0, and every commission is recorded | invalid entries are stored as "" as in the "sales" branch, so the recipient's own rate or the shop default applies | medium; not executed | Sanitizer.SanitizeEntryAsWritten, SanitizerFacts.InvalidEarningsEntryAsWritten, SanitizerFacts.SaveThenResolve | Sanitizer.SanitizeEntry, SanitizerFacts.InvalidEntryFallsThrough, SanitizerFacts.SaveThenResolve |
| edd-commission-thresholds.php:250 | the threshold string is split only when `! empty()` holds, and `empty("0")` is true | settings with threshold "0" (one recipient, explicit zero rate): row 0 of the meta box is blank although the resolver uses "0" | a stored "0" is shown as "0", matching the resolver, which treats "0" as a configured zero | low; not executed | Decoders.MetaBoxThreshold, DecoderFacts.MetaBoxHidesLoneZero, DecoderFacts.ZeroRowShownBlank | Decoders.MetaBoxThresholdIntended, DecoderFacts.MetaBoxShowsResolvedEntry |
