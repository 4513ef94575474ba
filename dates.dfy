/**
 * The date helpers of the sign-up week: the weekday offsets to the next
 * Wednesday and to the Tuesday after it, `formatDate`'s zero padding, the
 * "start ~ end" range string and reading its start back.
 */
module Dates {
  import opened Types

  /** The calendar fields `formatDate` reads: full year, 0-based month, day of month. */
  datatype CalendarDate = CalendarDate(year: int, monthIndex: int, day: int)

  // Weekday offsets.

  /** JavaScript's `%` on integers: the remainder takes the sign of the dividend. */
  function JsRemainder(a: int, b: int): (r: int)
    requires b > 0
    ensures a >= 0 ==> 0 <= r < b && r == a % b
    ensures a < 0 ==> -b < r <= 0
  {
    if a >= 0 then a % b else -((-a) % b)
  }

  /** The weekday (0 = Sunday, as `getDay`) `k` days after weekday `from`. */
  function WeekdayAfter(from: int, k: int): int
  {
    (from + k) % 7
  }

  /** Days from weekday `currentDay` to the next Wednesday, today included. */
  function DiffToNextWednesday(currentDay: int): (diff: int)
    requires 0 <= currentDay <= 6
    ensures 0 <= diff <= 6
    ensures WeekdayAfter(currentDay, diff) == 3
    ensures forall k :: 0 <= k < diff ==> WeekdayAfter(currentDay, k) != 3
  {
    JsRemainder(3 - currentDay + 7, 7)
  }

  /**
   * Days from weekday `currentDay` to the second Tuesday counting today:
   * exactly one Tuesday lies in the days before it, the one seven days
   * earlier.
   */
  function DiffToNextNextTuesday(currentDay: int): (diff: int)
    requires 0 <= currentDay <= 6
    ensures 7 <= diff <= 13
    ensures WeekdayAfter(currentDay, diff) == 2
    ensures WeekdayAfter(currentDay, diff - 7) == 2
    ensures forall k :: 0 <= k < diff - 7 ==> WeekdayAfter(currentDay, k) != 2
  {
    JsRemainder(2 - currentDay + 7, 7) + 7
  }

  /**
   * The range runs from a Wednesday to the Tuesday six days later, except
   * when today is a Wednesday: then it starts today and ends thirteen days
   * later.
   */
  lemma RangeSpan(currentDay: int)
    requires 0 <= currentDay <= 6
    ensures DiffToNextNextTuesday(currentDay) - DiffToNextWednesday(currentDay)
      == if currentDay == 3 then 13 else 6
  {
    assert DiffToNextWednesday(currentDay) == JsRemainder(10 - currentDay, 7);
    assert DiffToNextNextTuesday(currentDay) == JsRemainder(9 - currentDay, 7) + 7;
    if currentDay < 3 {
      assert JsRemainder(10 - currentDay, 7) == 3 - currentDay;
      assert JsRemainder(9 - currentDay, 7) == 2 - currentDay;
    } else if currentDay == 3 {
      assert JsRemainder(7, 7) == 0 && JsRemainder(6, 7) == 6;
    } else {
      assert JsRemainder(10 - currentDay, 7) == 10 - currentDay;
      assert JsRemainder(9 - currentDay, 7) == 9 - currentDay;
    }
  }

  // Number formatting.

  predicate IsDigit(c: char)
  {
    '0' <= c <= '9'
  }

  predicate AllDigits(s: string)
  {
    forall i :: 0 <= i < |s| ==> IsDigit(s[i])
  }

  function DigitChar(d: nat): (c: char)
    requires d < 10
    ensures IsDigit(c) && c as int - '0' as int == d
  {
    ('0' as int + d) as char
  }

  /** The number a string of decimal digits denotes. */
  function DigitsValue(s: string): nat
    requires AllDigits(s)
  {
    if s == [] then 0 else DigitsValue(s[..|s| - 1]) * 10 + (s[|s| - 1] as int - '0' as int)
  }

  /** Decimal digits of `n`, no leading zero. */
  function NatToString(n: nat): (s: string)
    ensures 1 <= |s|
    ensures AllDigits(s)
    ensures n > 0 ==> s[0] != '0'
  {
    if n < 10 then [DigitChar(n)] else NatToString(n / 10) + [DigitChar(n % 10)]
  }

  /** Reading the digits back gives the number. */
  lemma {:induction false} NatToStringRoundTrip(n: nat)
    ensures DigitsValue(NatToString(n)) == n
  {
    if n >= 10 {
      NatToStringRoundTrip(n / 10);
      var s := NatToString(n);
      assert s[..|s| - 1] == NatToString(n / 10);
    }
  }

  /** Number of decimal digits of `n`. */
  lemma {:induction false} NatToStringLength(n: nat)
    ensures n < 10 ==> |NatToString(n)| == 1
    ensures 10 <= n < 100 ==> |NatToString(n)| == 2
    ensures 100 <= n < 1000 ==> |NatToString(n)| == 3
    ensures 1000 <= n < 10000 ==> |NatToString(n)| == 4
  {
    if n >= 10 {
      NatToStringLength(n / 10);
    }
  }

  /** `toString()` of an integer. */
  function IntToString(n: int): (s: string)
    ensures 1 <= |s|
    ensures s[0] == '-' <==> n < 0
  {
    if n < 0 then "-" + NatToString(-n) else NatToString(n)
  }

  /** `padStart(width, fill)` with a one-character fill. */
  function PadStart(s: string, width: nat, fill: char): (r: string)
    ensures |r| == Max(|s|, width)
    ensures r[|r| - |s|..] == s
    ensures forall i :: 0 <= i < |r| - |s| ==> r[i] == fill
  {
    if |s| >= width then s else seq(width - |s|, _ => fill) + s
  }

  /** `formatDate`: `year-MM-DD` with month and day padded to two digits. */
  function FormatDate(d: CalendarDate): string
  {
    IntToString(d.year) + "-"
    + PadStart(IntToString(d.monthIndex + 1), 2, '0') + "-"
    + PadStart(IntToString(d.day), 2, '0')
  }

  /** The two-digit decimal numeral of `v`, leading zero included. */
  function TwoDigits(v: nat): (s: string)
    requires v < 100
    ensures |s| == 2 && AllDigits(s) && DigitsValue(s) == v
  {
    var hi, lo := DigitChar(v / 10), DigitChar(v % 10);
    var s := [hi, lo];
    assert DigitsValue([hi]) == v / 10 by {
      assert [hi][..0] == [];
    }
    assert s[..1] == [hi];
    assert DigitsValue(s) == DigitsValue([hi]) * 10 + v % 10;
    s
  }

  /** Padding to width 2 with `0` turns a month number or day of month into its two-digit numeral. */
  lemma {:induction false} PaddedField(v: int)
    requires 1 <= v <= 99
    ensures PadStart(IntToString(v), 2, '0') == TwoDigits(v)
  {
    var s := NatToString(v);
    if v >= 10 {
      assert s == NatToString(v / 10) + [DigitChar(v % 10)];
      assert NatToString(v / 10) == [DigitChar(v / 10)];
    }
  }

  /**
   * For a month index 0..11 and a day 1..31 the output is the year's
   * digits, `-`, the month as two digits, `-`, the day as two digits; a
   * four-digit year makes it `YYYY-MM-DD`, ten characters.
   */
  lemma FormatDateShape(d: CalendarDate)
    requires 0 <= d.year
    requires 0 <= d.monthIndex <= 11 && 1 <= d.day <= 31
    ensures FormatDate(d) == NatToString(d.year) + "-" + TwoDigits(d.monthIndex + 1) + "-" + TwoDigits(d.day)
  {
    var y := IntToString(d.year);
    var mm := PadStart(IntToString(d.monthIndex + 1), 2, '0');
    var dd := PadStart(IntToString(d.day), 2, '0');
    assert FormatDate(d) == y + "-" + mm + "-" + dd;
    assert y == NatToString(d.year);
    PaddedField(d.monthIndex + 1);
    PaddedField(d.day);
  }

  /** With a four-digit year the output has the ten characters of `YYYY-MM-DD`. */
  lemma FormatDateLength(d: CalendarDate)
    requires 1000 <= d.year <= 9999
    requires 0 <= d.monthIndex <= 11 && 1 <= d.day <= 31
    ensures |FormatDate(d)| == 10
  {
    FormatDateShape(d);
    NatToStringLength(d.year);
  }

  /** Only digits and `-`. */
  predicate DateChars(s: string)
  {
    forall i :: 0 <= i < |s| ==> IsDigit(s[i]) || s[i] == '-'
  }

  lemma DateCharsConcat(a: string, b: string)
    requires DateChars(a) && DateChars(b)
    ensures DateChars(a + b)
  {
    forall i | 0 <= i < |a + b| ensures IsDigit((a + b)[i]) || (a + b)[i] == '-' {
      if i >= |a| {
        assert (a + b)[i] == b[i - |a|];
      }
    }
  }

  lemma PaddedDateChars(n: int)
    ensures DateChars(IntToString(n))
    ensures DateChars(PadStart(IntToString(n), 2, '0'))
  {
    var t := IntToString(n);
    var p := PadStart(t, 2, '0');
    if n < 0 {
      DateCharsConcat("-", NatToString(-n));
    }
    if |t| < 2 {
      DateCharsConcat(p[..|p| - |t|], t);
      assert p == p[..|p| - |t|] + t;
    }
  }

  /** `formatDate` writes only digits and `-`, and at least one character. */
  lemma FormatDateChars(d: CalendarDate)
    ensures |FormatDate(d)| > 0
    ensures DateChars(FormatDate(d))
  {
    var y := IntToString(d.year);
    var mm := PadStart(IntToString(d.monthIndex + 1), 2, '0');
    var dd := PadStart(IntToString(d.day), 2, '0');
    var dash := "-";
    assert FormatDate(d) == y + dash + mm + dash + dd;
    assert DateChars(dash);
    PaddedDateChars(d.year);
    PaddedDateChars(d.monthIndex + 1);
    PaddedDateChars(d.day);
    DateCharsConcat(y, dash);
    DateCharsConcat(y + dash, mm);
    DateCharsConcat(y + dash + mm, dash);
    DateCharsConcat(y + dash + mm + dash, dd);
  }

  // The range string and reading its start back.

  /** `String.prototype.trim`'s white space: WhiteSpace and LineTerminator of ECMAScript. */
  predicate IsJsWhitespace(c: char)
  {
    || c == '\t' || c == '\n' || c == '\U{000B}' || c == '\U{000C}' || c == '\r' || c == ' '
    || c == '\U{00A0}' || c == '\U{1680}' || ('\U{2000}' <= c <= '\U{200A}')
    || c == '\U{2028}' || c == '\U{2029}' || c == '\U{202F}' || c == '\U{205F}'
    || c == '\U{3000}' || c == '\U{FEFF}'
  }

  /** Every character of `w` is white space (`w` may be empty). */
  predicate AllWhitespace(w: string)
  {
    forall i :: 0 <= i < |w| ==> IsJsWhitespace(w[i])
  }

  /** `trimStart`: the suffix left after dropping the leading white space. */
  function TrimStart(s: string): (r: string)
    ensures |r| <= |s| && r == s[|s| - |r|..]
    ensures forall i :: 0 <= i < |s| - |r| ==> IsJsWhitespace(s[i])
    ensures r != [] ==> !IsJsWhitespace(r[0])
  {
    if s != [] && IsJsWhitespace(s[0]) then TrimStart(s[1..]) else s
  }

  /** `trimEnd`: the prefix left after dropping the trailing white space. */
  function TrimEnd(s: string): (r: string)
    ensures |r| <= |s| && r == s[..|r|]
    ensures forall i :: |r| <= i < |s| ==> IsJsWhitespace(s[i])
    ensures r != [] ==> !IsJsWhitespace(r[|r| - 1])
  {
    if s != [] && IsJsWhitespace(s[|s| - 1]) then TrimEnd(s[..|s| - 1]) else s
  }

  /** `String.prototype.trim`: drop the white space at both ends. */
  function Trim(s: string): (r: string)
    ensures |r| <= |s|
    ensures r != [] ==> !IsJsWhitespace(r[0]) && !IsJsWhitespace(r[|r| - 1])
  {
    TrimEnd(TrimStart(s))
  }

  /**
   * What `trim` keeps is the infix of `s` that starts after the leading
   * white space (`k` characters) and is followed only by white space.
   */
  lemma TrimInfix(s: string)
    ensures var k, r := |s| - |TrimStart(s)|, Trim(s);
      && k + |r| <= |s|
      && r == s[k..k + |r|]
      && (forall i :: 0 <= i < k ==> IsJsWhitespace(s[i]))
      && (forall i :: k + |r| <= i < |s| ==> IsJsWhitespace(s[i]))
  {
    var t := TrimStart(s);
    var k := |s| - |t|;
    var r := TrimEnd(t);
    SlicePrefixOfSuffix(s, k, r);
    TrailingWhitespace(s, k, |r|);
  }

  /** White space after position `n` of the suffix `s[k..]` is white space after `k + n` in `s`. */
  lemma TrailingWhitespace(s: string, k: nat, n: nat)
    requires k + n <= |s|
    requires forall i :: n <= i < |s[k..]| ==> IsJsWhitespace(s[k..][i])
    ensures forall i :: k + n <= i < |s| ==> IsJsWhitespace(s[i])
  {
    forall i | k + n <= i < |s| ensures IsJsWhitespace(s[i]) {
      assert s[i] == s[k..][i - k];
    }
  }

  /** A prefix `r` of the suffix `s[k..]` is the slice `s[k..k + |r|]`. */
  lemma SlicePrefixOfSuffix(s: string, k: nat, r: string)
    requires k + |r| <= |s| && r == s[k..][..|r|]
    ensures r == s[k..k + |r|]
  {
  }

  /** Leading white space `w` in front of `x` is exactly what `trimStart` drops. */
  lemma {:induction false} TrimStartPadded(w: string, x: string)
    requires AllWhitespace(w)
    requires x != [] ==> !IsJsWhitespace(x[0])
    ensures TrimStart(w + x) == x
  {
    if w == [] {
      assert w + x == x;
    } else {
      assert (w + x)[0] == w[0] && (w + x)[1..] == w[1..] + x;
      assert AllWhitespace(w[1..]) by {
        assert forall i :: 0 <= i < |w| - 1 ==> w[1..][i] == w[i + 1];
      }
      TrimStartPadded(w[1..], x);
    }
  }

  /** Trailing white space `w` after `x` is exactly what `trimEnd` drops. */
  lemma {:induction false} TrimEndPadded(x: string, w: string)
    requires AllWhitespace(w)
    requires x != [] ==> !IsJsWhitespace(x[|x| - 1])
    ensures TrimEnd(x + w) == x
  {
    if w == [] {
      assert x + w == x;
    } else {
      var init := w[..|w| - 1];
      assert (x + w)[|x + w| - 1] == w[|w| - 1] && (x + w)[..|x + w| - 1] == x + init;
      assert AllWhitespace(init) by {
        assert forall i :: 0 <= i < |init| ==> init[i] == w[i];
      }
      TrimEndPadded(x, init);
    }
  }

  /** Trimming white space `w1` and `w2` off both ends of `a` gives `a` back, when `a` has none at its ends. */
  lemma TrimPadded(w1: string, a: string, w2: string)
    requires AllWhitespace(w1) && AllWhitespace(w2)
    requires a != [] ==> !IsJsWhitespace(a[0]) && !IsJsWhitespace(a[|a| - 1])
    ensures Trim(w1 + a + w2) == a
  {
    if a == [] {
      assert w1 + a + w2 == w1 + w2 + a;
      assert AllWhitespace(w1 + w2) by {
        forall i | 0 <= i < |w1 + w2| ensures IsJsWhitespace((w1 + w2)[i]) {
          if i >= |w1| {
            assert (w1 + w2)[i] == w2[i - |w1|];
          }
        }
      }
      TrimStartPadded(w1 + w2, a);
      assert TrimEnd([]) == [];
    } else {
      assert w1 + a + w2 == w1 + (a + w2);
      assert (a + w2)[0] == a[0];
      TrimStartPadded(w1, a + w2);
      TrimEndPadded(a, w2);
    }
  }

  /** `s.split('~')[0]`: everything before the first `~`, or all of `s`. */
  function BeforeFirstTilde(s: string): (r: string)
    ensures |r| <= |s| && r == s[..|r|]
    ensures '~' !in r
    ensures |r| < |s| ==> s[|r|] == '~'
  {
    if s == [] || s[0] == '~' then [] else [s[0]] + BeforeFirstTilde(s[1..])
  }

  /** `extractNextWednesdayFromRange`. */
  function ExtractNextWednesdayFromRange(dateRange: string): (r: string)
    ensures '~' !in r
    ensures r != [] ==> !IsJsWhitespace(r[0]) && !IsJsWhitespace(r[|r| - 1])
  {
    Trim(BeforeFirstTilde(dateRange))
  }

  /** The part before the first `~` of `w1 a w2 ~ b` trims to `a`, for white space `w1`, `w2`. */
  lemma ExtractPadded(w1: string, a: string, w2: string, b: string)
    requires AllWhitespace(w1) && AllWhitespace(w2)
    requires '~' !in a
    requires a != [] ==> !IsJsWhitespace(a[0]) && !IsJsWhitespace(a[|a| - 1])
    ensures ExtractNextWednesdayFromRange(w1 + a + w2 + "~" + b) == a
  {
    var p := w1 + a + w2;
    assert '~' !in p by {
      assert forall c :: c in w1 || c in w2 ==> c != '~';
    }
    BeforeTildeOf(p, b);
    TrimPadded(w1, a, w2);
  }

  /** `split('~')[0]` of `p ~ b` is `p` when `p` has no `~`. */
  lemma {:induction false} BeforeTildeOf(p: string, b: string)
    requires '~' !in p
    ensures BeforeFirstTilde(p + "~" + b) == p
  {
    if p != [] {
      assert (p + "~" + b)[0] == p[0] && (p + "~" + b)[1..] == p[1..] + "~" + b;
      BeforeTildeOf(p[1..], b);
    } else {
      assert p + "~" + b == "~" + b;
    }
  }

  /** The string `getNextWednesdayToNextNextTuesday` returns for the two computed dates. */
  function RangeString(nextWednesday: CalendarDate, nextNextTuesday: CalendarDate): string
  {
    FormatDate(nextWednesday) + " ~ " + FormatDate(nextNextTuesday)
  }

  /** The part before `~` of `a ~ b` trims back to `a` when `a` has no `~` and no outer white space. */
  lemma ExtractRoundTrip(a: string, b: string)
    requires '~' !in a
    requires a != [] ==> !IsJsWhitespace(a[0]) && !IsJsWhitespace(a[|a| - 1])
    ensures ExtractNextWednesdayFromRange(a + " ~ " + b) == a
  {
    assert a + " ~ " + b == [] + a + " " + "~" + (" " + b);
    assert AllWhitespace(" ");
    ExtractPadded([], a, " ", " " + b);
  }

  /** A non-empty string of digits and `-` has no `~` and no white space at either end. */
  lemma DateCharsOuter(a: string)
    requires DateChars(a) && a != []
    ensures '~' !in a
    ensures !IsJsWhitespace(a[0]) && !IsJsWhitespace(a[|a| - 1])
  {
    assert '~' !in a by {
      forall i | 0 <= i < |a| ensures a[i] != '~' {
      }
    }
    assert IsDigit(a[0]) || a[0] == '-';
    assert IsDigit(a[|a| - 1]) || a[|a| - 1] == '-';
  }

  /** The join date read back from the range string is the formatted Wednesday. */
  lemma NextWednesdayRoundTrip(nextWednesday: CalendarDate, nextNextTuesday: CalendarDate)
    ensures ExtractNextWednesdayFromRange(RangeString(nextWednesday, nextNextTuesday))
      == FormatDate(nextWednesday)
  {
    var a := FormatDate(nextWednesday);
    FormatDateChars(nextWednesday);
    DateCharsOuter(a);
    ExtractRoundTrip(a, FormatDate(nextNextTuesday));
  }
}
