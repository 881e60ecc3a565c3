/** Printing and reading the `YYYY-MM-DD` strings of the date parser (`pad`, `toISO`, `parseISOParts`). */
module IsoDate {
  import opened Wrappers
  import opened Text

  /** `pad`: `String(n).padStart(2, '0')`. */
  function Pad(n: nat): (r: string)
    ensures IsDigits(r)
    ensures n < 100 ==> |r| == 2 && DigitsValue(r) == n
  {
    var s := NatToString(n);
    NatToStringLength(n);
    DigitsValueOfNatToString(n);
    if |s| < 2 then "0" + s else s
  }

  /**
   * `-MM-DD` at the end, after at least one character of year: the shape
   * `toISO` prints for a month and a day below 100, whatever the year.
   */
  predicate MonthDayShaped(s: string) {
    && |s| >= 7 && s[|s| - 6] == '-' && s[|s| - 3] == '-'
    && IsDigits(s[|s| - 5..|s| - 3]) && IsDigits(s[|s| - 2..])
  }

  /** `toISO(y, m, d)`: the year as `String(y)` prints it, then the padded month and day. */
  function ToISO(y: int, m: nat, d: nat): (r: string)
    ensures m < 100 && d < 100 ==> MonthDayShaped(r)
    ensures m < 100 && d < 100 ==> DigitsValue(r[|r| - 5..|r| - 3]) == m && DigitsValue(r[|r| - 2..]) == d
  {
    var ys := IntToString(y);
    var r := ys + "-" + Pad(m) + "-" + Pad(d);
    assert |ys| >= 1;
    assert m < 100 && d < 100 ==> r[|r| - 5..|r| - 3] == Pad(m) && r[|r| - 2..] == Pad(d);
    r
  }

  /** `^\d{4}-\d{2}-\d{2}$` */
  predicate IsoShaped(s: string) {
    |s| == 10 && s[4] == '-' && s[7] == '-'
    && forall i :: 0 <= i < 10 && i != 4 && i != 7 ==> IsDigit(s[i])
  }

  datatype Parts = Parts(year: nat, month: nat, day: nat)

  /** `parseISOParts`: the numbers of an ISO-shaped string, or `None`. */
  function ParseIsoParts(s: string): (r: Option<Parts>)
    ensures r.Some? <==> IsoShaped(s)
    ensures r.Some? ==> r.value.year < 10000 && r.value.month < 100 && r.value.day < 100
  {
    if IsoShaped(s) then
      DigitsValueUpperBound(s[..4]);
      DigitsValueUpperBound(s[5..7]);
      DigitsValueUpperBound(s[8..]);
      Some(Parts(DigitsValue(s[..4]), DigitsValue(s[5..7]), DigitsValue(s[8..])))
    else None
  }

  /** Two-digit padding reads back as the same number. */
  lemma PadRoundTrip(s: string)
    requires |s| == 2 && IsDigits(s)
    ensures Pad(DigitsValue(s)) == s
  {
    var v := DigitsValue(s);
    DigitsValueUpperBound(s);
    if s[0] == '0' {
      assert s[1..] == [s[1]];
      assert s[..1] == [s[0]];
      assert DigitsValue(s) == DigitValue(s[1]);
      NatToStringOfDigitsValue(s[1..]);
      assert DigitsValue(s[1..]) == DigitValue(s[1]);
      NatToStringLength(v);
    } else {
      NatToStringOfDigitsValue(s);
    }
  }

  /**
   * `toISO` prints an ISO-shaped string exactly when the year has four digits,
   * and then `parseISOParts` reads back the numbers it was given.
   */
  lemma ToIsoRoundTrip(y: int, m: nat, d: nat)
    requires m < 100 && d < 100
    ensures IsoShaped(ToISO(y, m, d)) <==> 1000 <= y < 10000
    ensures 1000 <= y < 10000 ==> ParseIsoParts(ToISO(y, m, d)) == Some(Parts(y, m, d))
  {
    var s := ToISO(y, m, d);
    if y < 0 {
      assert s[0] == '-';
      assert !IsoShaped(s) by {
        if |s| == 10 { assert !IsDigit(s[0]); }
      }
    } else {
      var ys := NatToString(y);
      NatToStringLength(y);
      assert s == ys + "-" + Pad(m) + "-" + Pad(d);
      if 1000 <= y < 10000 {
        assert s[..4] == ys;
        assert s[5..7] == Pad(m);
        assert s[8..] == Pad(d);
        DigitsValueOfNatToString(y);
      } else {
        assert |s| == |ys| + 6;
      }
    }
  }

  /**
   * Reading an ISO-shaped string and printing its numbers gives the string
   * back, unless the year has a leading zero (`+"0025"` prints as `"25"`).
   */
  lemma ParseThenPrint(s: string)
    requires IsoShaped(s)
    ensures var p := ParseIsoParts(s).value;
      ToISO(p.year, p.month, p.day) == s <==> s[0] != '0'
  {
    var p := ParseIsoParts(s).value;
    var ys := s[..4];
    assert IsDigits(ys);
    assert IsDigits(s[5..7]) && IsDigits(s[8..]);
    PadRoundTrip(s[5..7]);
    PadRoundTrip(s[8..]);
    assert s == ys + "-" + s[5..7] + "-" + s[8..];
    if s[0] != '0' {
      NatToStringOfDigitsValue(ys);
    } else {
      DigitsValueUpperBound(ys);
      var t := ToISO(p.year, p.month, p.day);
      assert DigitsValue(ys) == DigitsValue(ys[1..]) by {
        LeadingZero(ys);
      }
      DigitsValueUpperBound(ys[1..]);
      NatToStringLength(p.year);
      assert |t| < 10;
    }
  }

  /** A leading zero does not change a digit string's value. */
  lemma {:induction false} LeadingZero(s: string)
    requires IsDigits(s) && s[0] == '0'
    ensures DigitsValue(s) == DigitsValue(s[1..])
  {
    if |s| > 1 {
      var p := s[..|s| - 1];
      assert p[0] == '0';
      LeadingZero(p);
      assert s[1..][..|s[1..]| - 1] == p[1..];
    } else {
      assert s[..0] == [];
    }
  }

  /** For two-digit numbers, padding preserves numeric order as string order. */
  lemma PadOrder(a: nat, b: nat)
    requires a < 100 && b < 100
    ensures LexLe(Pad(a), Pad(b)) <==> a <= b
  {
    TwoDigitOrder(Pad(a), Pad(b));
  }

  /** Two-digit strings compare like the numbers they spell. */
  lemma TwoDigitOrder(x: string, y: string)
    requires |x| == 2 && |y| == 2 && IsDigits(x) && IsDigits(y)
    ensures LexLe(x, y) <==> DigitsValue(x) <= DigitsValue(y)
  {
    assert x[..1] == [x[0]] && y[..1] == [y[0]];
    assert x[..1][..0] == [] && y[..1][..0] == [];
    assert DigitsValue(x[..1]) == DigitValue(x[0]) && DigitsValue(y[..1]) == DigitValue(y[0]);
    assert DigitsValue(x) == 10 * DigitValue(x[0]) + DigitValue(x[1]);
    assert DigitsValue(y) == 10 * DigitValue(y[0]) + DigitValue(y[1]);
    assert x[1..][1..] == [] && y[1..][1..] == [];
    if x[0] == y[0] {
      assert x[1..][0] == x[1] && y[1..][0] == y[1];
      assert LexLe(x, y) == LexLe(x[1..], y[1..]);
      assert LexLe(x[1..], y[1..]) == (x[1] <= y[1]);
    } else {
      assert LexLe(x, y) == (x[0] < y[0]);
    }
  }

  /** Two dates of the same year and month compare like their days. */
  lemma SameMonthOrder(y: int, m: nat, d1: nat, d2: nat)
    requires d1 < 100 && d2 < 100
    ensures LexLe(ToISO(y, m, d1), ToISO(y, m, d2)) <==> d1 <= d2
  {
    var prefix := IntToString(y) + "-" + Pad(m) + "-";
    assert ToISO(y, m, d1) == prefix + Pad(d1);
    assert ToISO(y, m, d2) == prefix + Pad(d2);
    LexLeCommonPrefix(prefix, Pad(d1), Pad(d2));
    PadOrder(d1, d2);
  }

  /** An ISO-shaped string ends in `-MM-DD`. */
  lemma IsoShapedIsMonthDay(s: string)
    requires IsoShaped(s)
    ensures MonthDayShaped(s)
  {
  }
}
