/**
 * The PHP string primitives the plugin builds its comma-joined lists with:
 * `explode`, `implode`, `trim` and a one-character `str_replace`.
 * Strings are plain character sequences; no encoding is modelled.
 */
module Strings {

  /** The characters PHP's `trim()` strips by default: " \t\n\r\0\x0B". */
  predicate IsTrimSpace(c: char) {
    c == ' ' || c == '\t' || c == '\n' || c == '\r' || c == '\0' || c == '\U{000B}'
  }

  /** Number of occurrences of `c` in `s`. */
  function CountChar(s: string, c: char): nat {
    if |s| == 0 then 0 else (if s[0] == c then 1 else 0) + CountChar(s[1..], c)
  }

  /**
   * `explode(sep, s)`: the pieces of `s` between occurrences of `sep`.
   * There is always one more piece than separators, and no piece holds one.
   */
  function Split(s: string, sep: char): (parts: seq<string>)
    ensures |parts| == CountChar(s, sep) + 1
    ensures forall k :: 0 <= k < |parts| ==> sep !in parts[k]
    decreases |s|
  {
    if |s| == 0 then [""]
    else
      var rest := Split(s[1..], sep);
      if s[0] == sep then [""] + rest
      else [[s[0]] + rest[0]] + rest[1..]
  }

  /** The number of characters in all the parts together. */
  function TotalLength(parts: seq<string>): nat {
    if |parts| == 0 then 0 else |parts[0]| + TotalLength(parts[1..])
  }

  /**
   * `implode(sep, parts)`: the parts with `sep` between consecutive ones, so
   * the text is as long as the parts plus one separator per gap, and holds
   * one separator per gap more than the parts do.
   */
  function Join(parts: seq<string>, sep: char): (r: string)
    ensures |parts| == 0 ==> r == ""
    ensures |parts| >= 1 ==> |r| == TotalLength(parts) + |parts| - 1
    ensures |parts| >= 1 ==> CountChar(r, sep) == CountAll(parts, sep) + |parts| - 1
  {
    if |parts| == 0 then ""
    else if |parts| == 1 then parts[0]
    else
      CountCharConcat(parts[0] + [sep], Join(parts[1..], sep), sep);
      CountCharConcat(parts[0], [sep], sep);
      parts[0] + [sep] + Join(parts[1..], sep)
  }

  /** The number of occurrences of `c` in all the parts together. */
  function CountAll(parts: seq<string>, c: char): nat {
    if |parts| == 0 then 0 else CountChar(parts[0], c) + CountAll(parts[1..], c)
  }

  /** `trim()`'s left half: drops leading trim-space characters only. */
  function TrimLeft(s: string): (r: string)
    ensures |r| <= |s| && r == s[|s| - |r|..]
    ensures forall k :: 0 <= k < |s| - |r| ==> IsTrimSpace(s[k])
    ensures |r| > 0 ==> !IsTrimSpace(r[0])
  {
    if |s| > 0 && IsTrimSpace(s[0]) then
      var r := TrimLeft(s[1..]);
      assert forall k :: 1 <= k < |s| ==> s[1..][k - 1] == s[k];
      assert s[1..][|s| - 1 - |r|..] == s[|s| - |r|..];
      r
    else s
  }

  /** `trim()`'s right half: drops trailing trim-space characters only. */
  function TrimRight(s: string): (r: string)
    ensures |r| <= |s| && r == s[..|r|]
    ensures forall k :: |r| <= k < |s| ==> IsTrimSpace(s[k])
    ensures |r| > 0 ==> !IsTrimSpace(r[|r| - 1])
  {
    if |s| > 0 && IsTrimSpace(s[|s| - 1]) then
      var r := TrimRight(s[..|s| - 1]);
      assert s[..|s| - 1][..|r|] == s[..|r|];
      r
    else s
  }

  /** True when every character of `s` is a trim-space character. */
  predicate OnlyTrimSpace(s: string) {
    forall k :: 0 <= k < |s| ==> IsTrimSpace(s[k])
  }

  /** `trim(s)`: `s` without its leading and trailing trim-space characters (see `TrimSlice`). */
  function Trim(s: string): (r: string)
    ensures |r| <= |s|
    ensures |r| > 0 ==> !IsTrimSpace(r[0]) && !IsTrimSpace(r[|r| - 1])
    ensures forall c :: c in r ==> c in s
  {
    TrimRight(TrimLeft(s))
  }

  /**
   * What `trim` keeps: the slice of `s` between a leading and a trailing run
   * of trim space; with the ends of `Trim(s)` not trim space, this pins the
   * result down.
   */
  lemma TrimSlice(s: string)
    ensures TrimStart(s) + |Trim(s)| <= |s|
    ensures Trim(s) == s[TrimStart(s)..TrimStart(s) + |Trim(s)|]
    ensures OnlyTrimSpace(s[..TrimStart(s)]) && OnlyTrimSpace(s[TrimStart(s) + |Trim(s)|..])
  {
    var l := TrimLeft(s);
    var r := TrimRight(l);
    var i := TrimStart(s);
    TrimLeftHead(s);
    TrimRightTail(l);
    assert s[i..] == l;
    assert r == l[..|r|];
    assert s[i + |r|..] == l[|r|..];
  }

  /** Where `trim` starts keeping characters: just after the leading trim space. */
  function TrimStart(s: string): (i: nat)
    ensures i <= |s|
  {
    |s| - |TrimLeft(s)|
  }

  /** The characters `TrimLeft` drops are trim space. */
  lemma TrimLeftHead(s: string)
    ensures OnlyTrimSpace(s[..TrimStart(s)])
  {
    var head := s[..TrimStart(s)];
    forall k | 0 <= k < |head| ensures IsTrimSpace(head[k]) {
      assert head[k] == s[k];
    }
  }

  /** The characters `TrimRight` drops are trim space. */
  lemma TrimRightTail(l: string)
    ensures OnlyTrimSpace(l[|TrimRight(l)|..])
  {
    var tail := l[|TrimRight(l)|..];
    forall k | 0 <= k < |tail| ensures IsTrimSpace(tail[k]) {
      assert tail[k] == l[|TrimRight(l)| + k];
    }
  }

  /** `trim` leaves a list of trimmed strings unchanged. */
  lemma TrimAllOfTrimmed(parts: seq<string>)
    requires forall k :: 0 <= k < |parts| ==> Trimmed(parts[k])
    ensures TrimAll(parts) == parts
  {
    forall k | 0 <= k < |parts| ensures TrimAll(parts)[k] == parts[k] {
      TrimOfTrimmed(parts[k]);
    }
  }

  /** `array_map('trim', parts)`. */
  function TrimAll(parts: seq<string>): (r: seq<string>)
    ensures |r| == |parts|
    ensures forall k :: 0 <= k < |r| ==> r[k] == Trim(parts[k])
  {
    if |parts| == 0 then [] else [Trim(parts[0])] + TrimAll(parts[1..])
  }

  /** `str_replace(c, '', s)` for a one-character needle. */
  function RemoveChar(s: string, c: char): (r: string)
    ensures c !in r
    ensures forall x :: x in r ==> x in s
    ensures forall x :: x in s && x != c ==> x in r
    ensures |r| == |s| - CountChar(s, c)
    ensures forall x :: x != c ==> CountChar(r, x) == CountChar(s, x)
  {
    if |s| == 0 then ""
    else
      var rest := RemoveChar(s[1..], c);
      CountCharCons(s[0], s[1..]);
      assert [s[0]] + s[1..] == s;
      if s[0] == c then rest
      else
        CountCharCons(s[0], rest);
        [s[0]] + rest
  }

  /** Removing a character that does not occur changes nothing. */
  lemma {:induction false} RemoveAbsent(s: string, c: char)
    requires c !in s
    ensures RemoveChar(s, c) == s
    decreases |s|
  {
    if |s| > 0 {
      assert c !in s[1..] by {
        forall k | 0 <= k < |s[1..]| ensures s[1..][k] != c {
          assert s[1..][k] == s[k + 1];
        }
      }
      RemoveAbsent(s[1..], c);
      assert [s[0]] + s[1..] == s;
    }
  }

  /** Counting in a string that starts with `h` counts `h` and then the rest. */
  lemma CountCharCons(h: char, rest: string)
    ensures forall x :: CountChar([h] + rest, x) == (if h == x then 1 else 0) + CountChar(rest, x)
  {
    assert ([h] + rest)[1..] == rest;
  }

  /** `str_replace` applied to each piece of a list. */
  function RemoveCharAll(parts: seq<string>, c: char): (r: seq<string>)
    ensures |r| == |parts|
    ensures forall k :: 0 <= k < |r| ==> r[k] == RemoveChar(parts[k], c)
  {
    if |parts| == 0 then [] else [RemoveChar(parts[0], c)] + RemoveCharAll(parts[1..], c)
  }

  /** True when `s` has no trim-space character at either end. */
  predicate Trimmed(s: string) {
    |s| == 0 || (!IsTrimSpace(s[0]) && !IsTrimSpace(s[|s| - 1]))
  }

  // ---------------------------------------------------------------------
  // Split / Join
  // ---------------------------------------------------------------------

  /** A piece without the separator splits to itself. */
  lemma {:induction false} SplitNoSep(s: string, sep: char)
    requires sep !in s
    ensures Split(s, sep) == [s]
    decreases |s|
  {
    if |s| > 0 {
      assert s[0] != sep;
      SplitNoSep(s[1..], sep);
      assert [s[0]] + s[1..] == s;
    }
  }

  /** Splitting `a,b` where `a` holds no separator yields `a` and then the pieces of `b`. */
  lemma {:induction false} SplitConcat(a: string, b: string, sep: char)
    requires sep !in a
    ensures Split(a + [sep] + b, sep) == [a] + Split(b, sep)
    decreases |a|
  {
    var s := a + [sep] + b;
    if |a| == 0 {
      assert s == [sep] + b;
      assert s[1..] == b;
    } else {
      assert s[0] == a[0];
      assert s[1..] == a[1..] + [sep] + b;
      SplitConcat(a[1..], b, sep);
      assert [a[0]] + a[1..] == a;
    }
  }

  /** explode undoes implode, as long as no piece holds the separator. */
  lemma {:induction false} SplitJoin(parts: seq<string>, sep: char)
    requires |parts| >= 1
    requires forall k :: 0 <= k < |parts| ==> sep !in parts[k]
    ensures Split(Join(parts, sep), sep) == parts
    decreases |parts|
  {
    if |parts| == 1 {
      SplitNoSep(parts[0], sep);
    } else {
      SplitJoin(parts[1..], sep);
      SplitConcat(parts[0], Join(parts[1..], sep), sep);
      assert [parts[0]] + parts[1..] == parts;
    }
  }

  /** implode undoes explode on every string. */
  lemma {:induction false} JoinSplit(s: string, sep: char)
    ensures Join(Split(s, sep), sep) == s
    decreases |s|
  {
    if |s| > 0 {
      var rest := Split(s[1..], sep);
      JoinSplit(s[1..], sep);
      if s[0] == sep {
        JoinLeadingEmpty(rest, sep);
      } else {
        JoinLeadingChar(s[0], rest, sep);
      }
      assert s == [s[0]] + s[1..];
    }
  }

  /** An empty first part contributes just the separator. */
  lemma JoinLeadingEmpty(rest: seq<string>, sep: char)
    requires |rest| >= 1
    ensures Join([""] + rest, sep) == [sep] + Join(rest, sep)
  {
    assert ([""] + rest)[1..] == rest;
  }

  /** A character put before the first part comes first in the join. */
  lemma JoinLeadingChar(c: char, rest: seq<string>, sep: char)
    requires |rest| >= 1
    ensures Join([[c] + rest[0]] + rest[1..], sep) == [c] + Join(rest, sep)
  {
    var parts := [[c] + rest[0]] + rest[1..];
    assert parts[1..] == rest[1..];
    if |rest| > 1 {
      assert Join(rest, sep) == rest[0] + [sep] + Join(rest[1..], sep);
    }
  }

  /** Occurrences in a concatenation add up. */
  lemma {:induction false} CountCharConcat(a: string, b: string, c: char)
    ensures CountChar(a + b, c) == CountChar(a, c) + CountChar(b, c)
    decreases |a|
  {
    if |a| == 0 {
      assert a + b == b;
    } else {
      assert (a + b)[1..] == a[1..] + b;
      CountCharConcat(a[1..], b, c);
    }
  }

  /** A character that occurs is counted at least once. */
  lemma {:induction false} CountCharPresent(s: string, c: char)
    requires c in s
    ensures CountChar(s, c) >= 1
    decreases |s|
  {
    if s[0] != c {
      assert c in s[1..] by {
        var k :| 0 <= k < |s| && s[k] == c;
        assert s[1..][k - 1] == c;
      }
      CountCharPresent(s[1..], c);
    }
  }

  /** A join holds at least one separator between consecutive parts. */
  lemma {:induction false} JoinSeparatorCount(parts: seq<string>, sep: char)
    requires |parts| >= 1
    ensures CountChar(Join(parts, sep), sep) >= |parts| - 1
    decreases |parts|
  {
    if |parts| > 1 {
      JoinSeparatorCount(parts[1..], sep);
      CountCharConcat(parts[0] + [sep], Join(parts[1..], sep), sep);
      CountCharConcat(parts[0], [sep], sep);
    }
  }

  /**
   * When one of the parts itself holds the separator, splitting the join
   * gives more pieces than there were parts.
   */
  lemma {:induction false} SplitJoinWithSeparatorInPart(parts: seq<string>, sep: char, k: nat)
    requires k < |parts| && sep in parts[k]
    ensures CountChar(Join(parts, sep), sep) >= |parts|
    ensures |Split(Join(parts, sep), sep)| > |parts|
    decreases |parts|
  {
    if |parts| == 1 {
      CountCharPresent(parts[0], sep);
    } else {
      CountCharConcat(parts[0] + [sep], Join(parts[1..], sep), sep);
      CountCharConcat(parts[0], [sep], sep);
      if k == 0 {
        CountCharPresent(parts[0], sep);
        JoinSeparatorCount(parts[1..], sep);
      } else {
        SplitJoinWithSeparatorInPart(parts[1..], sep, k - 1);
      }
    }
  }

  // ---------------------------------------------------------------------
  // Character removal
  // ---------------------------------------------------------------------

  lemma {:induction false} RemoveCharConcat(a: string, b: string, c: char)
    ensures RemoveChar(a + b, c) == RemoveChar(a, c) + RemoveChar(b, c)
    decreases |a|
  {
    if |a| > 0 {
      assert (a + b)[0] == a[0];
      assert (a + b)[1..] == a[1..] + b;
      RemoveCharConcat(a[1..], b, c);
    } else {
      assert a + b == b;
    }
  }

  /** Removing a non-separator character commutes with implode. */
  lemma {:induction false} RemoveCharJoin(parts: seq<string>, sep: char, c: char)
    requires sep != c
    ensures RemoveChar(Join(parts, sep), c) == Join(RemoveCharAll(parts, c), sep)
    decreases |parts|
  {
    if |parts| > 1 {
      var r := RemoveCharAll(parts, c);
      RemoveCharJoin(parts[1..], sep, c);
      RemoveCharConcat(parts[0] + [sep], Join(parts[1..], sep), c);
      RemoveCharConcat(parts[0], [sep], c);
      assert RemoveChar([sep], c) == [sep];
      assert r[1..] == RemoveCharAll(parts[1..], c);
    }
  }

  /**
   * Stripping a non-separator character before exploding gives the same
   * pieces, in the same positions, as exploding first and stripping each
   * piece: removal never shifts list positions.
   */
  lemma SplitRemoveChar(s: string, sep: char, c: char)
    requires sep != c
    ensures Split(RemoveChar(s, c), sep) == RemoveCharAll(Split(s, sep), c)
  {
    var parts := Split(s, sep);
    JoinSplit(s, sep);
    RemoveCharJoin(parts, sep, c);
    var r := RemoveCharAll(parts, c);
    forall k | 0 <= k < |r| ensures sep !in r[k] {
      assert sep !in parts[k];
    }
    SplitJoin(r, sep);
  }

  // ---------------------------------------------------------------------
  // Trimming
  // ---------------------------------------------------------------------

  /** True when no character of `s` is a trim-space character. */
  predicate NoTrimSpace(s: string) {
    forall k :: 0 <= k < |s| ==> !IsTrimSpace(s[k])
  }

  /** Joining parts free of trim space with a separator that is not one gives a trimmed string. */
  lemma {:induction false} JoinNoTrimSpace(parts: seq<string>, sep: char)
    requires !IsTrimSpace(sep)
    requires forall k :: 0 <= k < |parts| ==> NoTrimSpace(parts[k])
    ensures NoTrimSpace(Join(parts, sep)) && Trimmed(Join(parts, sep))
    decreases |parts|
  {
    if |parts| > 1 {
      JoinNoTrimSpace(parts[1..], sep);
      var a := parts[0] + [sep];
      var b := Join(parts[1..], sep);
      forall k | 0 <= k < |a + b| ensures !IsTrimSpace((a + b)[k]) {
        if k < |parts[0]| {
          assert (a + b)[k] == parts[0][k];
        } else if k >= |a| {
          assert (a + b)[k] == b[k - |a|];
        }
      }
    }
  }

  /** `trim` leaves a string without trim-space ends unchanged. */
  lemma TrimOfTrimmed(s: string)
    requires Trimmed(s)
    ensures Trim(s) == s
  {
  }

  /** `trim` is idempotent. */
  lemma TrimIdempotent(s: string)
    ensures Trim(Trim(s)) == Trim(s)
  {
    TrimOfTrimmed(Trim(s));
  }

  // ---------------------------------------------------------------------
  // sanitize_text_field
  // ---------------------------------------------------------------------

  /** The characters whose runs `sanitize_text_field` turns into one space: space, tab, CR and LF. */
  predicate IsRunSpace(c: char) {
    c == ' ' || c == '\t' || c == '\n' || c == '\r'
  }

  /** No tab or line break, and never two spaces in a row. */
  predicate Collapsed(s: string) {
    (forall k :: 0 <= k < |s| ==> s[k] == ' ' || !IsRunSpace(s[k])) &&
    (forall k :: 0 <= k < |s| - 1 ==> s[k] != ' ' || s[k + 1] != ' ')
  }

  /**
   * `preg_replace('/[\r\n\t ]+/', ' ', s)`: every maximal run of spaces,
   * tabs and line breaks becomes a single space (see `CollapseSpaceShape`).
   */
  function CollapseSpace(s: string): (r: string)
    ensures |r| <= |s|
    decreases |s|
  {
    if |s| == 0 then ""
    else if IsRunSpace(s[0]) && |s| > 1 && IsRunSpace(s[1]) then CollapseSpace(s[1..])
    else [if IsRunSpace(s[0]) then ' ' else s[0]] + CollapseSpace(s[1..])
  }

  /**
   * The collapsed text has no tab, line break or double space; it starts
   * with the input's first character, or a space for a run; it holds no
   * character other than a space that the input lacks; and every character
   * outside the runs occurs in it exactly as often as in the input (their
   * order is `CollapseSpaceKeepsOrder`).
   */
  lemma {:induction false} CollapseSpaceShape(s: string)
    ensures Collapsed(CollapseSpace(s))
    ensures |s| > 0 ==> |CollapseSpace(s)| > 0 && CollapseSpace(s)[0] == (if IsRunSpace(s[0]) then ' ' else s[0])
    ensures forall c :: c in CollapseSpace(s) ==> c == ' ' || c in s
    ensures forall c :: !IsRunSpace(c) ==> CountChar(CollapseSpace(s), c) == CountChar(s, c)
    decreases |s|
  {
    if |s| > 0 {
      var rest := CollapseSpace(s[1..]);
      CollapseSpaceShape(s[1..]);
      CountCharCons(s[0], s[1..]);
      assert [s[0]] + s[1..] == s;
      if !(IsRunSpace(s[0]) && |s| > 1 && IsRunSpace(s[1])) {
        var h := if IsRunSpace(s[0]) then ' ' else s[0];
        CountCharCons(h, rest);
        assert forall k :: 1 <= k < |[h] + rest| ==> ([h] + rest)[k] == rest[k - 1];
      }
    }
  }

  /** The text with every space, tab and line break removed, the rest in order. */
  function DropRunSpace(s: string): string
    decreases |s|
  {
    if |s| == 0 then "" else (if IsRunSpace(s[0]) then "" else [s[0]]) + DropRunSpace(s[1..])
  }

  /**
   * Collapsing touches only the runs: the characters outside them come out
   * in the same order as they went in.
   */
  lemma {:induction false} CollapseSpaceKeepsOrder(s: string)
    ensures DropRunSpace(CollapseSpace(s)) == DropRunSpace(s)
    decreases |s|
  {
    if |s| > 0 {
      CollapseSpaceKeepsOrder(s[1..]);
      if !(IsRunSpace(s[0]) && |s| > 1 && IsRunSpace(s[1])) {
        var h := if IsRunSpace(s[0]) then ' ' else s[0];
        var rest := CollapseSpace(s[1..]);
        assert ([h] + rest)[0] == h && ([h] + rest)[1..] == rest;
      }
    }
  }

  /** A string that is already collapsed is left as it is. */
  lemma {:induction false} CollapseSpaceOfCollapsed(s: string)
    requires Collapsed(s)
    ensures CollapseSpace(s) == s
    decreases |s|
  {
    if |s| > 0 {
      assert Collapsed(s[1..]) by {
        assert forall k :: 0 <= k < |s[1..]| ==> s[1..][k] == s[k + 1];
      }
      CollapseSpaceOfCollapsed(s[1..]);
      assert [s[0]] + s[1..] == s;
    }
  }

  /** Every slice of a collapsed string is collapsed. */
  lemma CollapsedSlice(s: string, i: nat, j: nat)
    requires Collapsed(s) && i <= j <= |s|
    ensures Collapsed(s[i..j])
  {
    assert forall k :: 0 <= k < j - i ==> s[i..j][k] == s[i + k];
  }

  /**
   * WordPress's `sanitize_text_field` on plain text: runs of spaces, tabs and
   * line breaks become one space, then the ends are trimmed, so the result
   * has no trim space at either end (see `SanitizeTextFieldShape` for the
   * rest of what it promises).
   */
  function SanitizeTextField(s: string): (r: string)
    ensures Trimmed(r)
  {
    Trim(CollapseSpace(s))
  }

  /**
   * The sanitized text has no tab or line break and no double space, and
   * holds no character other than a space that the input lacks.
   */
  lemma SanitizeTextFieldShape(s: string)
    ensures Collapsed(SanitizeTextField(s))
    ensures forall c :: c in SanitizeTextField(s) ==> c == ' ' || c in s
  {
    var c := CollapseSpace(s);
    CollapseSpaceShape(s);
    TrimSlice(c);
    CollapsedSlice(c, TrimStart(c), TrimStart(c) + |Trim(c)|);
  }

  /** On text that holds no tab, no line break and no double space, the sanitizer is `trim`. */
  lemma SanitizeTextFieldOfCollapsed(s: string)
    requires Collapsed(s)
    ensures SanitizeTextField(s) == Trim(s)
  {
    CollapseSpaceOfCollapsed(s);
  }

  /** Sanitizing twice is sanitizing once. */
  lemma SanitizeTextFieldIdempotent(s: string)
    ensures SanitizeTextField(SanitizeTextField(s)) == SanitizeTextField(s)
  {
    var r := SanitizeTextField(s);
    SanitizeTextFieldShape(s);
    SanitizeTextFieldOfCollapsed(r);
    TrimOfTrimmed(r);
  }

  /** Text with no trim space anywhere is trimmed. */
  lemma NoTrimSpaceTrimmed(e: string)
    requires NoTrimSpace(e)
    ensures Trimmed(e)
  {
    if |e| > 0 {
      assert !IsTrimSpace(e[0]) && !IsTrimSpace(e[|e| - 1]);
    }
  }

  /** The sanitizer leaves text that holds no trim space as it is. */
  lemma SanitizeTextFieldOfPlain(s: string)
    requires NoTrimSpace(s)
    ensures SanitizeTextField(s) == s
  {
    assert Collapsed(s);
    SanitizeTextFieldOfCollapsed(s);
    NoTrimSpaceTrimmed(s);
    TrimOfTrimmed(s);
  }

  /** The sanitizer leaves a list of such texts as it is. */
  lemma SanitizeTextFieldsOfPlain(parts: seq<string>)
    requires forall k :: 0 <= k < |parts| ==> NoTrimSpace(parts[k])
    ensures SanitizeTextFields(parts) == parts
  {
    forall k | 0 <= k < |parts| ensures SanitizeTextFields(parts)[k] == parts[k] {
      SanitizeTextFieldOfPlain(parts[k]);
    }
  }

  /** Text of trim space only sanitizes to "". */
  lemma SanitizeTextFieldOfBlank(s: string)
    requires OnlyTrimSpace(s)
    ensures SanitizeTextField(s) == ""
  {
    var cs := CollapseSpace(s);
    CollapseSpaceShape(s);
    forall k | 0 <= k < |cs| ensures IsTrimSpace(cs[k]) {
      assert cs[k] in cs;
    }
    assert OnlyTrimSpace(cs);
  }

  /** A character that is not trim space survives the sanitizer. */
  lemma SanitizeTextFieldKeeps(s: string, c: char)
    requires c in s && !IsTrimSpace(c)
    ensures c in SanitizeTextField(s)
  {
    CollapseSpaceKeeps(s, c);
    TrimKeeps(CollapseSpace(s), c);
  }

  /** A character outside the runs survives their collapse. */
  lemma CollapseSpaceKeeps(s: string, c: char)
    requires c in s && !IsRunSpace(c)
    ensures c in CollapseSpace(s)
  {
    CollapseSpaceShape(s);
    CountCharPresent(s, c);
    if c !in CollapseSpace(s) {
      CountCharAbsent(CollapseSpace(s), c);
    }
  }

  /** A character that is not trim space survives `trim`. */
  lemma TrimKeeps(s: string, c: char)
    requires c in s && !IsTrimSpace(c)
    ensures c in Trim(s)
  {
    var k :| 0 <= k < |s| && s[k] == c;
    TrimSlice(s);
    assert Trim(s)[k - TrimStart(s)] == c;
  }

  /** A character that does not occur is counted zero times. */
  lemma {:induction false} CountCharAbsent(s: string, c: char)
    requires c !in s
    ensures CountChar(s, c) == 0
    decreases |s|
  {
    if |s| > 0 {
      assert c !in s[1..] by {
        forall k | 0 <= k < |s[1..]| ensures s[1..][k] != c {
          assert s[1..][k] == s[k + 1];
        }
      }
      CountCharAbsent(s[1..], c);
    }
  }

  /** `array_map('sanitize_text_field', parts)`. */
  function SanitizeTextFields(parts: seq<string>): (r: seq<string>)
    ensures |r| == |parts|
    ensures forall k :: 0 <= k < |r| ==> r[k] == SanitizeTextField(parts[k])
  {
    if |parts| == 0 then [] else [SanitizeTextField(parts[0])] + SanitizeTextFields(parts[1..])
  }
}
