/**
 * The two other readers of the comma-joined settings strings: the
 * commissions meta box, which shows the threshold of row i, and
 * `get_recipients`, which turns the id string into integers.
 */
module Decoders {
  import opened Wrappers
  import opened Strings
  import opened Numbers
  import opened Settings
  import Resolver

  /** The stored 'threshold' string, "" when there is no settings array or no such key. */
  function ThresholdText(settings: Option<ThresholdSettings>): string {
    if settings.Some? && settings.value.thresholds.Some? then settings.value.thresholds.value else ""
  }

  /** Entry i of a trimmed list, "" when the list has no such key. */
  function EntryAt(list: seq<string>, i: int): string {
    if 0 <= i < |list| then list[i] else ""
  }

  /**
   * `filter_commissions_meta_box_rates_query_args` as written: the threshold
   * cell of row i. The string is split only when it is not empty in PHP's
   * sense, so a stored "0" yields no entries and the cell is blank.
   */
  function MetaBoxThreshold(settings: Option<ThresholdSettings>, i: int): (r: string)
    ensures EmptyString(ThresholdText(settings)) ==> r == ""
    ensures !EmptyString(ThresholdText(settings)) ==> r == MetaBoxThresholdIntended(settings, i)
  {
    var text := ThresholdText(settings);
    var list := if EmptyString(text) then [] else TrimAll(Split(text, ','));
    EntryAt(list, i)
  }

  /**
   * The cell as the meta box means to show it: only an unset or "" string has
   * no entries, so every stored entry, "0" included, is shown in its row.
   */
  function MetaBoxThresholdIntended(settings: Option<ThresholdSettings>, i: int): (r: string)
    ensures settings.Some? && settings.value.thresholds.Some? ==>
      r == EntryAt(Resolver.ThresholdList(settings.value), i)
    ensures settings.None? || settings.value.thresholds.None? ==> r == ""
  {
    var text := ThresholdText(settings);
    assert text == "" ==> Split(text, ',') == [""];
    EntryAt(if text == "" then [] else TrimAll(Split(text, ',')), i)
  }

  /**
   * `get_recipients`: no ids when the 'user_id' key is unset, else `intval`
   * of every comma-separated piece, untrimmed.
   */
  function Recipients(settings: Option<ThresholdSettings>): (r: seq<int>)
    ensures settings.None? || settings.value.userIds.None? ==> r == []
    ensures settings.Some? && settings.value.userIds.Some? ==>
      var pieces := Split(settings.value.userIds.value, ',');
      |r| == |pieces| && forall k :: 0 <= k < |r| ==> r[k] == IntVal(pieces[k])
  {
    if settings.None? || settings.value.userIds.None? then []
    else IntValAll(Split(settings.value.userIds.value, ','))
  }

  /** `array_map('intval', ...)`. */
  function IntValAll(pieces: seq<string>): (r: seq<int>)
    ensures |r| == |pieces|
    ensures forall k :: 0 <= k < |r| ==> r[k] == IntVal(pieces[k])
  {
    if |pieces| == 0 then [] else [IntVal(pieces[0])] + IntValAll(pieces[1..])
  }
}

/** What the decoders read back from a saved download. */
module DecoderFacts {
  import opened Wrappers
  import opened Strings
  import opened Numbers
  import opened Settings
  import opened Resolver
  import opened ResolverFacts
  import opened Decoders
  import Sanitizer

  /**
   * The intended meta box shows, in the row of a recipient's position, the
   * very entry the resolver uses for that recipient.
   */
  lemma MetaBoxShowsResolvedEntry(s: ThresholdSettings, userId: int)
    requires !s.IsEmpty() && s.thresholds.Some?
    ensures MetaBoxThresholdIntended(Some(s), RatePosition(s, userId)) == ProductEntry(Some(s), userId).GetOr("")
  {
  }

  /** A single stored threshold "0": the resolver uses it, the meta box as written shows a blank cell. */
  lemma MetaBoxHidesLoneZero(userIds: string)
    ensures var s := ThresholdSettings(None, Some(userIds), Some("0"));
      MetaBoxThreshold(Some(s), 0) == "" && MetaBoxThresholdIntended(Some(s), 0) == "0"
  {
    var s := ThresholdSettings(None, Some(userIds), Some("0"));
    SplitNoSep("0", ',');
    assert Trimmed("0");
    TrimOfTrimmed("0");
    assert TrimAll(Split("0", ',')) == ["0"];
  }

  /**
   * A threshold row of "0.00" saved under "earnings" is stored as "0", and a
   * lone stored "0" shows as a blank cell on the download screen.
   */
  lemma ZeroRowShownBlank(userIds: string, decimals: nat)
    ensures Sanitizer.SanitizeEntry(Earnings, "0.00", decimals) == "0"
    ensures MetaBoxThreshold(Some(ThresholdSettings(None, Some(userIds), Some("0"))), 0) == ""
  {
    DecimalRoundTrip("0", "00");
    assert "0" + "." + "00" == "0.00";
    assert DigitsValue("0") == 0 && DigitsValue("00") == 0 by {
      assert "00"[..1] == "0";
    }
    ZeroScaled(2);
    Sanitizer.ZeroEntryStoredAsZero(Earnings, "0.00", decimals);
    MetaBoxHidesLoneZero(userIds);
  }

  /** The decimal text of every id. */
  function IdTexts(ids: seq<nat>): (r: seq<string>)
    ensures |r| == |ids|
    ensures forall k :: 0 <= k < |r| ==> r[k] == NatToString(ids[k])
  {
    if |ids| == 0 then [] else [NatToString(ids[0])] + IdTexts(ids[1..])
  }

  /** `intval` reads a decimal text back as its number. */
  lemma IntValOfNatText(n: nat)
    ensures IntVal(NatToString(n)) == n
  {
    DigitsRoundTrip(NatToString(n));
  }

  /** Ids written as decimal text and joined with ',' are read back by `get_recipients` unchanged. */
  lemma RecipientsRoundTrip(thresholdType: Option<string>, ids: seq<nat>, thresholds: Option<string>)
    requires |ids| >= 1
    ensures Recipients(Some(ThresholdSettings(thresholdType, Some(Join(IdTexts(ids), ',')), thresholds))) == ids
  {
    var texts := IdTexts(ids);
    forall k | 0 <= k < |texts| ensures ',' !in texts[k] {
      assert forall j :: 0 <= j < |texts[k]| ==> IsDigit(texts[k][j]);
    }
    SplitJoin(texts, ',');
    var r := Recipients(Some(ThresholdSettings(thresholdType, Some(Join(texts, ',')), thresholds)));
    forall k | 0 <= k < |ids| ensures r[k] == ids[k] {
      IntValOfNatText(ids[k]);
    }
  }

  /** An empty 'user_id' string still yields one recipient, user 0. */
  lemma EmptyIdStringGivesUserZero(thresholdType: Option<string>, thresholds: Option<string>)
    ensures Recipients(Some(ThresholdSettings(thresholdType, Some(""), thresholds))) == [0]
  {
    SplitNoSep("", ',');
    assert ScanNumber("") == None;
  }
}
