/**
 * PHP's numeric-string semantics over exact reals: `is_numeric`, the
 * `(float)` and `(int)` string casts, `round()` half away from zero, and the
 * decimal text a rounded float is rendered as when it is implode()d.
 * The model follows PHP 7: leading whitespace is allowed in a numeric string,
 * trailing whitespace is not, and a non-numeric string casts to the value of
 * its longest numeric prefix (0 when there is none).
 */
module Numbers {
  import opened Wrappers
  import opened Strings

  predicate IsDigit(c: char) {
    '0' <= c <= '9'
  }

  function DigitValue(c: char): nat
    requires IsDigit(c)
  {
    c as int - '0' as int
  }

  function DigitChar(n: nat): (c: char)
    requires n < 10
    ensures IsDigit(c) && DigitValue(c) == n
  {
    ('0' as int + n) as char
  }

  predicate AllDigits(s: string) {
    forall k :: 0 <= k < |s| ==> IsDigit(s[k])
  }

  /** The natural number a string of decimal digits denotes. */
  function DigitsValue(s: string): nat
    requires AllDigits(s)
  {
    if |s| == 0 then 0 else DigitsValue(s[..|s| - 1]) * 10 + DigitValue(s[|s| - 1])
  }

  /** x * 10^k, one factor of ten at a time. */
  function Shift(x: real, k: nat): (r: real)
    ensures x >= 0.0 ==> r >= 0.0
  {
    if k == 0 then x else Shift(x, k - 1) * 10.0
  }

  /** x / 10^k, one factor of ten at a time. */
  function Unshift(x: real, k: nat): (r: real)
    ensures x >= 0.0 ==> r >= 0.0
  {
    if k == 0 then x else Unshift(x, k - 1) / 10.0
  }

  /** Whitespace PHP accepts in front of a numeric string: " \t\n\r\v\f". */
  predicate IsNumericSpace(c: char) {
    c == ' ' || c == '\t' || c == '\n' || c == '\r' || c == '\U{000B}' || c == '\U{000C}'
  }

  /** First position at or after `i` that is not numeric whitespace. */
  function SkipSpace(s: string, i: nat): (j: nat)
    requires i <= |s|
    ensures i <= j <= |s|
    ensures j == |s| || !IsNumericSpace(s[j])
    decreases |s| - i
  {
    if i < |s| && IsNumericSpace(s[i]) then SkipSpace(s, i + 1) else i
  }

  /** End of the run of digits that starts at `i`. */
  function DigitsEnd(s: string, i: nat): (j: nat)
    requires i <= |s|
    ensures i <= j <= |s|
    ensures AllDigits(s[i..j])
    ensures j == |s| || !IsDigit(s[j])
    decreases |s| - i
  {
    if i < |s| && IsDigit(s[i]) then
      var j := DigitsEnd(s, i + 1);
      assert s[i..j] == [s[i]] + s[i + 1..j];
      j
    else i
  }

  /**
   * The parts of the longest numeric prefix of a string:
   * `ws* [+-] (digits [. digits*] | . digits) [(e|E) [+-] digits]`.
   * `end` is the position just after the prefix.
   */
  datatype Scan = Scan(negative: bool, intDigits: string, fracDigits: string,
                       expNegative: bool, expDigits: string, end: nat)
  {
    predicate Valid() {
      AllDigits(intDigits) && AllDigits(fracDigits) && AllDigits(expDigits)
      && (|intDigits| > 0 || |fracDigits| > 0)
    }
  }

  /** The numeric prefix of `s`, or None when `s` does not start with a number. */
  function ScanNumber(s: string): (r: Option<Scan>)
    ensures r.Some? ==> r.value.Valid() && r.value.end <= |s|
  {
    var i0 := SkipSpace(s, 0);
    var signed := i0 < |s| && (s[i0] == '+' || s[i0] == '-');
    ScanUnsigned(s, if signed then i0 + 1 else i0, signed && s[i0] == '-')
  }

  /** The numeric prefix of `s` from position `i` on, past any sign. */
  function ScanUnsigned(s: string, i: nat, negative: bool): (r: Option<Scan>)
    requires i <= |s|
    ensures r.Some? ==> r.value.Valid() && r.value.end <= |s|
  {
    var intEnd := DigitsEnd(s, i);
    var hasDot := intEnd < |s| && s[intEnd] == '.';
    var fracEnd := if hasDot then DigitsEnd(s, intEnd + 1) else intEnd;
    if intEnd == i && (!hasDot || fracEnd == intEnd + 1) then None
    else
      var exp := ScanExponent(s, fracEnd);
      Some(Scan(negative, s[i..intEnd], if hasDot then s[intEnd + 1..fracEnd] else "",
                exp.0, exp.1, exp.2))
  }

  /**
   * An exponent `(e|E) [+-] digits` at position `i`: its sign, its digits and
   * the position after it; no digits and position `i` when there is none.
   */
  function ScanExponent(s: string, i: nat): (r: (bool, string, nat))
    requires i <= |s|
    ensures AllDigits(r.1) && i <= r.2 <= |s|
    ensures r.2 == i ==> r == (false, "", i)
  {
    if i < |s| && (s[i] == 'e' || s[i] == 'E') then
      var signed := i + 1 < |s| && (s[i + 1] == '+' || s[i + 1] == '-');
      var e1 := if signed then i + 2 else i + 1;
      var expEnd := DigitsEnd(s, e1);
      if expEnd == e1 then (false, "", i)
      else (signed && s[i + 1] == '-', s[e1..expEnd], expEnd)
    else (false, "", i)
  }

  /** `m` scaled by 10^e, or by 10^-e when `negative`. */
  function ApplyExponent(m: real, negative: bool, e: nat): (r: real)
    ensures e == 0 ==> r == m
  {
    if negative then Unshift(m, e) else Shift(m, e)
  }

  /** The real number a scanned prefix denotes. */
  function ScanValue(sc: Scan): real
    requires sc.Valid()
  {
    var mantissa := DigitsValue(sc.intDigits) as real
                    + Unshift(DigitsValue(sc.fracDigits) as real, |sc.fracDigits|);
    var magnitude := ApplyExponent(mantissa, sc.expNegative, DigitsValue(sc.expDigits));
    if sc.negative then -magnitude else magnitude
  }

  /** PHP's `is_numeric()` on a string: the whole string is one number. */
  predicate IsNumeric(s: string) {
    var r := ScanNumber(s);
    r.Some? && r.value.end == |s|
  }

  /** PHP's `(float)` cast of a string: the value of its numeric prefix, else 0. */
  function ToNumber(s: string): real {
    match ScanNumber(s)
    case None => 0.0
    case Some(sc) => ScanValue(sc)
  }

  /** Truncation toward zero, as PHP's `(int)` does to a float. */
  function Truncate(x: real): (n: int)
    ensures x >= 0.0 ==> 0 <= n && n as real <= x < n as real + 1.0
    ensures x < 0.0 ==> n <= 0 && n as real - 1.0 < x <= n as real
  {
    if x >= 0.0 then x.Floor else -((-x).Floor)
  }

  /**
   * PHP's `intval()` of a string (PHP 7.1 and later: exponents are honoured):
   * the integer part of the string's `(float)` cast, truncated toward zero.
   */
  function IntVal(s: string): (n: int)
    ensures ToNumber(s) >= 0.0 ==> 0 <= n && n as real <= ToNumber(s) < n as real + 1.0
    ensures ToNumber(s) < 0.0 ==> n <= 0 && n as real - 1.0 < ToNumber(s) <= n as real
  {
    Truncate(ToNumber(s))
  }

  /** The integer nearest to `y`, halves going away from zero. */
  function RoundHalfAway(y: real): (n: int)
    ensures y >= 0.0 ==> 0 <= n && y - 0.5 < n as real <= y + 0.5
    ensures y < 0.0 ==> n <= 0 && y - 0.5 <= n as real < y + 0.5
  {
    if y >= 0.0 then (y + 0.5).Floor else -((-y + 0.5).Floor)
  }

  /** The count of 10^-d units `round(x, d)` lands on. */
  function RoundUnits(x: real, d: nat): (n: int)
    ensures x >= 0.0 ==> n >= 0
  {
    RoundHalfAway(Shift(x, d))
  }

  /**
   * PHP's `round(x, d)`: the multiple of 10^-d nearest to `x`, halves away
   * from zero. Scaled by 10^d the result is a whole number at most one half
   * away from x scaled by 10^d.
   */
  function RoundTo(x: real, d: nat): (r: real)
    ensures Shift(r, d) == RoundUnits(x, d) as real
    ensures Shift(x, d) - 0.5 <= Shift(r, d) <= Shift(x, d) + 0.5
    ensures x >= 0.0 ==> r >= 0.0
  {
    var n := RoundUnits(x, d);
    ShiftUnshift(n as real, d);
    Unshift(n as real, d)
  }

  /** Decimal digits of `n`, without leading zeros. */
  function NatToString(n: nat): (s: string)
    ensures |s| >= 1 && AllDigits(s) && DigitsValue(s) == n
    ensures |s| > 1 ==> s[0] != '0'
  {
    if n < 10 then [DigitChar(n)]
    else
      var s := NatToString(n / 10) + [DigitChar(n % 10)];
      assert s[..|s| - 1] == NatToString(n / 10);
      s
  }

  function Zeros(k: nat): (s: string)
    ensures |s| == k && AllDigits(s)
    ensures forall i :: 0 <= i < k ==> s[i] == '0'
  {
    if k == 0 then "" else Zeros(k - 1) + "0"
  }

  /** `s` widened to `width` digits with leading zeros. */
  function PadLeft(s: string, width: nat): (r: string)
    requires AllDigits(s)
    ensures AllDigits(r)
    ensures |r| >= width && |r| >= |s|
  {
    if |s| >= width then s else Zeros(width - |s|) + s
  }

  /** `s` without its trailing '0' characters. */
  function StripTrailingZeros(s: string): (r: string)
    requires AllDigits(s)
    ensures AllDigits(r) && |r| <= |s| && r == s[..|r|]
    ensures |r| > 0 ==> r[|r| - 1] != '0'
  {
    if |s| > 0 && s[|s| - 1] == '0' then StripTrailingZeros(s[..|s| - 1]) else s
  }

  /** The digits of n, padded so that at least one stands before the last d. */
  function PaddedDigits(n: nat, d: nat): (s: string)
    ensures AllDigits(s) && |s| >= d + 1
  {
    PadLeft(NatToString(n), d + 1)
  }

  /** The digits of n / 10^d before the decimal point, with no leading zero. */
  function WholeDigits(n: nat, d: nat): (s: string)
    ensures AllDigits(s) && |s| >= 1
    ensures |s| > 1 ==> s[0] != '0'
  {
    var digits := PaddedDigits(n, d);
    var t := NatToString(n);
    assert |t| < d + 1 ==> |digits| == d + 1;
    assert |t| >= d + 1 ==> digits == t;
    digits[..|digits| - d]
  }

  /** The last d digits of n: the digits of n / 10^d after the decimal point. */
  function TailDigits(n: nat, d: nat): (s: string)
    ensures AllDigits(s) && |s| == d
  {
    var digits := PaddedDigits(n, d);
    digits[|digits| - d..]
  }

  /** The digits of n / 10^d after the decimal point, without trailing zeros. */
  function FractionDigits(n: nat, d: nat): (s: string)
    ensures AllDigits(s) && |s| <= d
    ensures |s| > 0 ==> s[|s| - 1] != '0'
  {
    StripTrailingZeros(TailDigits(n, d))
  }

  /**
   * The text PHP prints for the non-negative float n / 10^d: the whole part,
   * then, unless the value is whole, a '.' and the fraction digits without
   * trailing zeros ("12.35", "5", "0.5").
   */
  function RenderFixed(n: nat, d: nat): (s: string)
    ensures |s| >= 1 && IsDigit(s[0]) && IsDigit(s[|s| - 1])
    ensures forall c :: c in s ==> IsDigit(c) || c == '.'
    ensures CountChar(s, '.') <= 1
    ensures '.' in s ==> s[|s| - 1] != '0'
    ensures s[0] == '0' ==> |s| == 1 || s[1] == '.'
  {
    var whole := WholeDigits(n, d);
    var fraction := FractionDigits(n, d);
    NoDotInDigits(whole);
    if |fraction| == 0 then whole
    else
      NoDotInDigits(fraction);
      CountCharConcat(whole + ".", fraction, '.');
      CountCharConcat(whole, ".", '.');
      whole + "." + fraction
  }

  /** A digit string holds no '.'. */
  lemma NoDotInDigits(s: string)
    requires AllDigits(s)
    ensures '.' !in s && CountChar(s, '.') == 0
  {
    assert !IsDigit('.');
    CountCharAbsent(s, '.');
  }

  /** m * 10^k, one factor of ten at a time. */
  function TimesPow10(m: nat, k: nat): (r: nat)
    ensures r >= m
  {
    if k == 0 then m else TimesPow10(m, k - 1) * 10
  }

  /**
   * A whole value prints with no '.': m * 10^d at d places renders as the
   * plain digits of m, so the float 0 is stored as "0" at any precision.
   */
  lemma RenderFixedWhole(m: nat, d: nat)
    ensures RenderFixed(TimesPow10(m, d), d) == NatToString(m)
  {
    var n := TimesPow10(m, d);
    if m == 0 {
      ZeroTimesPow10(d);
      var z := PaddedDigits(0, d);
      assert z == "0" + Zeros(d) by {
        ZerosUnique(z);
        ZerosUnique("0" + Zeros(d));
      }
    } else {
      NatToStringShift(m, d);
    }
    RenderFixedOfPadded(n, d, NatToString(m));
  }

  /** When the padded digits of n are w followed by d zeros, n / 10^d prints as w. */
  lemma RenderFixedOfPadded(n: nat, d: nat, w: string)
    requires |w| >= 1 && PaddedDigits(n, d) == w + Zeros(d)
    ensures RenderFixed(n, d) == w
  {
    var digits := PaddedDigits(n, d);
    assert digits[|digits| - d..] == Zeros(d);
    assert digits[..|digits| - d] == w;
    StripZeros(d);
  }

  /** A string of '0' characters only is `Zeros` of its length. */
  lemma {:induction false} ZerosUnique(s: string)
    requires forall i :: 0 <= i < |s| ==> s[i] == '0'
    ensures s == Zeros(|s|)
    decreases |s|
  {
    if |s| > 0 {
      ZerosUnique(s[..|s| - 1]);
    }
  }

  /** Stripping the trailing zeros of `Zeros(k)` leaves nothing. */
  lemma {:induction false} StripZeros(k: nat)
    ensures StripTrailingZeros(Zeros(k)) == ""
  {
    if k > 0 {
      assert Zeros(k)[..k - 1] == Zeros(k - 1);
      StripZeros(k - 1);
    }
  }

  /** Zero stays zero however many places it is shifted. */
  lemma {:induction false} ZeroTimesPow10(k: nat)
    ensures TimesPow10(0, k) == 0
  {
    if k > 0 {
      ZeroTimesPow10(k - 1);
    }
  }

  /** The digits of a positive m * 10^d are those of m followed by d zeros. */
  lemma {:induction false} NatToStringShift(m: nat, d: nat)
    requires m > 0
    ensures NatToString(TimesPow10(m, d)) == NatToString(m) + Zeros(d)
  {
    if d == 0 {
      assert NatToString(m) + Zeros(0) == NatToString(m);
    } else {
      NatToStringShift(m, d - 1);
      NatToStringAppendZero(TimesPow10(m, d - 1), NatToString(m), Zeros(d - 1));
    }
  }

  /** One more factor of ten puts one more '0' after the digits `a + z`. */
  lemma NatToStringAppendZero(x: nat, a: string, z: string)
    requires x >= 1 && NatToString(x) == a + z
    ensures NatToString(x * 10) == a + (z + "0")
  {
    NatToStringTimesTen(x);
    ConcatAssoc(a, z, "0");
  }

  /** String concatenation is associative. */
  lemma ConcatAssoc(a: string, b: string, c: string)
    ensures (a + b) + c == a + (b + c)
  {
  }

  /** Multiplying a positive number by ten appends a '0' to its digits. */
  lemma NatToStringTimesTen(x: nat)
    requires x >= 1
    ensures NatToString(x * 10) == NatToString(x) + "0"
  {
    assert (x * 10) / 10 == x && (x * 10) % 10 == 0;
  }

  // ---------------------------------------------------------------------
  // Lemmas
  // ---------------------------------------------------------------------

  /** Shifting up and shifting down by the same amount cancel. */
  lemma {:induction false} ShiftUnshift(x: real, k: nat)
    ensures Shift(Unshift(x, k), k) == x
    ensures Unshift(Shift(x, k), k) == x
    decreases k
  {
    if k > 0 {
      ShiftUnshift(x, k - 1);
      ShiftByTen(Unshift(x, k - 1), k - 1);
      UnshiftByTen(Shift(x, k - 1), k - 1);
    }
  }

  /** Shift commutes with a factor of ten either way. */
  lemma {:induction false} ShiftByTen(x: real, k: nat)
    ensures Shift(x * 10.0, k) == Shift(x, k) * 10.0
    ensures Shift(x / 10.0, k) == Shift(x, k) / 10.0
    decreases k
  {
    if k > 0 {
      ShiftByTen(x, k - 1);
    }
  }

  /** Unshift commutes with a factor of ten either way. */
  lemma {:induction false} UnshiftByTen(x: real, k: nat)
    ensures Unshift(x * 10.0, k) == Unshift(x, k) * 10.0
    ensures Unshift(x / 10.0, k) == Unshift(x, k) / 10.0
    decreases k
  {
    if k > 0 {
      UnshiftByTen(x, k - 1);
    }
  }

  /** Unshift distributes over addition. */
  lemma {:induction false} UnshiftAdd(x: real, y: real, k: nat)
    ensures Unshift(x + y, k) == Unshift(x, k) + Unshift(y, k)
    decreases k
  {
    if k > 0 {
      UnshiftAdd(x, y, k - 1);
    }
  }

  /** Shifting down by a + b after shifting up by a is shifting down by b. */
  lemma UnshiftAfterShift(x: real, a: nat, b: nat)
    ensures Unshift(Shift(x, a), a + b) == Unshift(x, b)
  {
    UnshiftUnshift(Shift(x, a), a, b);
    ShiftUnshift(x, a);
  }

  /** Shifting down by a + b is shifting down by a, then by b. */
  lemma {:induction false} UnshiftUnshift(x: real, a: nat, b: nat)
    ensures Unshift(x, a + b) == Unshift(Unshift(x, a), b)
    decreases b
  {
    if b > 0 {
      UnshiftUnshift(x, a, b - 1);
      assert a + b - 1 == a + (b - 1);
    }
  }

  /** The value of a concatenation of digit strings. */
  lemma {:induction false} DigitsValueConcat(a: string, b: string)
    requires AllDigits(a) && AllDigits(b)
    ensures AllDigits(a + b)
    ensures DigitsValue(a + b) as real == Shift(DigitsValue(a) as real, |b|) + DigitsValue(b) as real
    decreases |b|
  {
    if |b| == 0 {
      assert a + b == a;
    } else {
      var b' := b[..|b| - 1];
      assert (a + b)[..|a + b| - 1] == a + b';
      DigitsValueConcat(a, b');
    }
  }

  /** A string of zeros is worth 0. */
  lemma {:induction false} ZerosValue(k: nat)
    ensures DigitsValue(Zeros(k)) == 0
  {
    if k > 0 {
      var z := Zeros(k);
      var y := Zeros(k - 1);
      assert z == y + "0";
      assert z[..k - 1] == y;
      assert DigitValue(z[k - 1]) == 0;
      ZerosValue(k - 1);
      assert DigitsValue(z) == DigitsValue(y) * 10 + DigitValue(z[k - 1]);
    }
  }

  /** Leading zeros do not change a digit string's value. */
  lemma {:induction false} ZerosPrefixValue(k: nat, s: string)
    requires AllDigits(s)
    ensures AllDigits(Zeros(k) + s)
    ensures DigitsValue(Zeros(k) + s) == DigitsValue(s)
    decreases |s|
  {
    var z := Zeros(k);
    if |s| == 0 {
      assert z + s == z;
      ZerosValue(k);
    } else {
      assert (z + s)[..|z + s| - 1] == z + s[..|s| - 1];
      ZerosPrefixValue(k, s[..|s| - 1]);
    }
  }

  lemma PadLeftValue(s: string, width: nat)
    requires AllDigits(s)
    ensures DigitsValue(PadLeft(s, width)) == DigitsValue(s)
  {
    if |s| < width {
      ZerosPrefixValue(width - |s|, s);
    }
  }

  /** Dropping k trailing zeros divides a digit string's value by 10^k. */
  lemma {:induction false} StripTrailingZerosValue(s: string)
    requires AllDigits(s)
    ensures DigitsValue(s) as real
            == Shift(DigitsValue(StripTrailingZeros(s)) as real, |s| - |StripTrailingZeros(s)|)
    decreases |s|
  {
    if |s| > 0 && s[|s| - 1] == '0' {
      var s' := s[..|s| - 1];
      StripTrailingZerosValue(s');
    }
  }

  /** `DigitsEnd` stops exactly at the end of a run of digits. */
  lemma {:induction false} DigitsEndAt(s: string, i: nat, j: nat)
    requires i <= j <= |s|
    requires forall k :: i <= k < j ==> IsDigit(s[k])
    requires j == |s| || !IsDigit(s[j])
    ensures DigitsEnd(s, i) == j
    decreases j - i
  {
    if i < j {
      DigitsEndAt(s, i + 1, j);
    }
  }

  /** A digit string followed by nothing or a non-digit scans as a whole part. */
  lemma DigitsPrefix(s: string, w: string)
    requires |w| >= 1 && AllDigits(w) && |w| <= |s| && s[..|w|] == w
    requires |w| == |s| || !IsDigit(s[|w|])
    ensures SkipSpace(s, 0) == 0
    ensures DigitsEnd(s, 0) == |w|
    ensures ScanNumber(s) == ScanUnsigned(s, 0, false)
  {
    assert s[0] == w[0];
    forall k | 0 <= k < |w| ensures IsDigit(s[k]) {
      assert s[k] == w[k];
    }
    DigitsEndAt(s, 0, |w|);
  }

  /** A whole digit string scans as a whole part alone. */
  lemma WholeScan(w: string)
    requires |w| >= 1 && AllDigits(w)
    ensures ScanNumber(w) == Some(Scan(false, w, "", false, "", |w|))
  {
    assert w[..|w|] == w;
    DigitsPrefix(w, w);
    assert w[0..|w|] == w;
    assert ScanExponent(w, |w|) == (false, "", |w|);
  }

  /**
   * The cast reads the numeric prefix only: digits followed by a character
   * that cannot continue a number ("10abc", "10 ") cast to the digits'
   * value, and such a string is not numeric.
   */
  lemma CastReadsDigitPrefix(w: string, t: string)
    requires |w| >= 1 && AllDigits(w)
    requires |t| >= 1 && !IsDigit(t[0]) && t[0] != '.' && t[0] != 'e' && t[0] != 'E'
    ensures ToNumber(w + t) == DigitsValue(w) as real
    ensures !IsNumeric(w + t)
  {
    var s := w + t;
    assert s[..|w|] == w;
    assert s[|w|] == t[0];
    DigitsPrefix(s, w);
    assert s[0..|w|] == w;
    assert ScanExponent(s, |w|) == (false, "", |w|);
    assert DigitsValue("") == 0;
  }

  /**
   * `is_numeric` accepts leading whitespace but not trailing whitespace:
   * " 5" is numeric and "5 " is not, and both cast to 5.
   */
  lemma LeadingSpaceOnly(w: string)
    requires |w| >= 1 && AllDigits(w)
    ensures IsNumeric(" " + w) && ToNumber(" " + w) == DigitsValue(w) as real
    ensures !IsNumeric(w + " ") && ToNumber(w + " ") == DigitsValue(w) as real
  {
    CastReadsDigitPrefix(w, " ");
    LeadingSpaceScan(w);
    assert DigitsValue("") == 0;
  }

  /** A space before a digit string is skipped: the digits are the whole number. */
  lemma LeadingSpaceScan(w: string)
    requires |w| >= 1 && AllDigits(w)
    ensures ScanNumber(" " + w) == Some(Scan(false, w, "", false, "", |w| + 1))
  {
    var s := " " + w;
    assert SkipSpace(s, 1) == 1 by { assert s[1] == w[0]; }
    assert SkipSpace(s, 0) == 1;
    forall k | 1 <= k < |s| ensures IsDigit(s[k]) {
      assert s[k] == w[k - 1];
    }
    DigitsEndAt(s, 1, |s|);
    assert s[1..|s|] == w;
    assert ScanExponent(s, |s|) == (false, "", |s|);
  }

  /** A whole digit string is numeric and casts to its own value. */
  lemma DigitsRoundTrip(w: string)
    requires |w| >= 1 && AllDigits(w)
    ensures IsNumeric(w) && ToNumber(w) == DigitsValue(w) as real
  {
    WholeScan(w);
    assert DigitsValue("") == 0;
  }

  /** The sign and digits of `"-" + w` are scanned as a negative whole number. */
  lemma NegativeScan(w: string)
    requires |w| >= 1 && AllDigits(w)
    ensures ScanNumber("-" + w) == Some(Scan(true, w, "", false, "", |w| + 1))
  {
    var s := "-" + w;
    assert SkipSpace(s, 0) == 0 by { assert !IsNumericSpace(s[0]); }
    forall k | 1 <= k < |s| ensures IsDigit(s[k]) {
      assert s[k] == w[k - 1];
    }
    DigitsEndAt(s, 1, |s|);
    assert s[1..|s|] == w;
    assert ScanExponent(s, |s|) == (false, "", |s|);
  }

  /** A minus sign before a digit string negates its value. */
  lemma NegativeDigitsRoundTrip(w: string)
    requires |w| >= 1 && AllDigits(w)
    ensures IsNumeric("-" + w) && ToNumber("-" + w) == -(DigitsValue(w) as real)
  {
    NegativeScan(w);
    assert DigitsValue("") == 0;
  }

  /** `whole.frac` scans as exactly that whole part and fraction, with no exponent. */
  lemma DecimalScan(w: string, f: string)
    requires |w| >= 1 && AllDigits(w) && AllDigits(f)
    ensures ScanNumber(w + "." + f) == Some(Scan(false, w, f, false, "", |w| + 1 + |f|))
  {
    var s := w + "." + f;
    assert s[..|w|] == w;
    assert s[|w|] == '.';
    DigitsPrefix(s, w);
    forall k | |w| + 1 <= k < |s| ensures IsDigit(s[k]) {
      assert s[k] == f[k - |w| - 1];
    }
    DigitsEndAt(s, |w| + 1, |s|);
    assert s == (w + ".") + f;
    assert s[0..|w|] == w;
    assert s[|w| + 1..] == f;
    assert s[|w| + 1..|s|] == f;
    assert ScanExponent(s, |s|) == (false, "", |s|);
  }

  /** `whole.frac` is numeric and casts to whole + frac / 10^|frac|. */
  lemma DecimalRoundTrip(w: string, f: string)
    requires |w| >= 1 && AllDigits(w) && AllDigits(f)
    ensures IsNumeric(w + "." + f)
    ensures ToNumber(w + "." + f) == DigitsValue(w) as real + Unshift(DigitsValue(f) as real, |f|)
  {
    DecimalScan(w, f);
    assert DigitsValue("") == 0;
  }

  /** A digit string is its first part shifted past its last d digits, plus those digits. */
  lemma DigitsSplitValue(digits: string, d: nat)
    requires AllDigits(digits) && |digits| >= d
    ensures DigitsValue(digits) as real
            == Shift(DigitsValue(digits[..|digits| - d]) as real, d) + DigitsValue(digits[|digits| - d..]) as real
  {
    var whole := digits[..|digits| - d];
    var tail := digits[|digits| - d..];
    assert digits == whole + tail;
    DigitsValueConcat(whole, tail);
  }

  /** If n = w * 10^d + f * 10^k with k + l = d, then n / 10^d = w + f / 10^l. */
  lemma UnshiftDecimal(n: real, w: real, t: real, f: real, d: nat, k: nat, l: nat)
    requires n == Shift(w, d) + t && t == Shift(f, k) && k + l == d
    ensures Unshift(n, d) == w + Unshift(f, l)
  {
    UnshiftAdd(Shift(w, d), Shift(f, k), d);
    ShiftUnshift(w, d);
    UnshiftAfterShift(f, k, l);
  }

  /** n is its whole digits shifted past its d tail digits, plus those digits. */
  lemma WholeTailValue(n: nat, d: nat)
    ensures n as real == Shift(DigitsValue(WholeDigits(n, d)) as real, d) + DigitsValue(TailDigits(n, d)) as real
  {
    PadLeftValue(NatToString(n), d + 1);
    DigitsSplitValue(PaddedDigits(n, d), d);
  }

  /** The value of the digits RenderFixed prints, read as whole.fraction, is n / 10^d. */
  lemma RenderFixedValue(n: nat, d: nat)
    ensures Unshift(n as real, d)
            == DigitsValue(WholeDigits(n, d)) as real
               + Unshift(DigitsValue(FractionDigits(n, d)) as real, |FractionDigits(n, d)|)
  {
    var fraction := FractionDigits(n, d);
    WholeTailValue(n, d);
    StripTrailingZerosValue(TailDigits(n, d));
    UnshiftDecimal(n as real, DigitsValue(WholeDigits(n, d)) as real, DigitsValue(TailDigits(n, d)) as real,
                   DigitsValue(fraction) as real, d, d - |fraction|, |fraction|);
  }

  /** A whole part, optionally followed by '.' and a non-empty fraction, reads back as whole.fraction. */
  lemma WholeFractionRoundTrip(w: string, f: string)
    requires |w| >= 1 && AllDigits(w) && AllDigits(f)
    ensures var s := if |f| == 0 then w else w + "." + f;
      IsNumeric(s) && ToNumber(s) == DigitsValue(w) as real + Unshift(DigitsValue(f) as real, |f|)
  {
    if |f| == 0 {
      DigitsRoundTrip(w);
      assert DigitsValue(f) == 0;
    } else {
      DecimalRoundTrip(w, f);
    }
  }

  /**
   * Render then cast is the identity: the text PHP stores for n / 10^d is
   * numeric and reads back as exactly n / 10^d.
   */
  lemma RenderFixedRoundTrip(n: nat, d: nat)
    ensures IsNumeric(RenderFixed(n, d))
    ensures ToNumber(RenderFixed(n, d)) == Unshift(n as real, d)
  {
    RenderFixedValue(n, d);
    WholeFractionRoundTrip(WholeDigits(n, d), FractionDigits(n, d));
  }

  /** A whole number rounds to itself. */
  lemma RoundHalfAwayWhole(k: int)
    ensures RoundHalfAway(k as real) == k
  {
    if k >= 0 {
      assert (k as real + 0.5).Floor == k;
    } else {
      assert (-k as real + 0.5).Floor == -k;
    }
  }

  /** `RoundTo` leaves a value that is already a multiple of 10^-d unchanged. */
  lemma RoundToExact(x: real, k: int, d: nat)
    requires Shift(x, d) == k as real
    ensures RoundTo(x, d) == x
  {
    RoundHalfAwayWhole(k);
    ShiftUnshift(x, d);
  }

  /** Zero stays zero under scaling either way. */
  lemma {:induction false} ZeroScaled(d: nat)
    ensures Shift(0.0, d) == 0.0 && Unshift(0.0, d) == 0.0
  {
    if d > 0 {
      ZeroScaled(d - 1);
    }
  }

  /** Zero rounds to zero at any precision. */
  lemma RoundZero(d: nat)
    ensures RoundTo(0.0, d) == 0.0
  {
    ZeroScaled(d);
  }

  /** Rounding is idempotent. */
  lemma RoundToIdempotent(x: real, d: nat)
    ensures RoundTo(RoundTo(x, d), d) == RoundTo(x, d)
  {
    RoundToExact(RoundTo(x, d), RoundUnits(x, d), d);
  }
}
