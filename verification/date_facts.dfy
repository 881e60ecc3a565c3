/**
 * What `parseDateRangeFlexible` (src/dates.js) does on the message shapes its
 * header comment advertises, and the quirks of its code: the same-month
 * shorthand, two ISO dates, the compact `D-D.M[.Y]` form, named-month
 * ranges with backfill, single dates read day first, and the lone ISO date
 * that fails.
 */
module DateFacts {
  import opened Wrappers
  import opened Text
  import opened Pattern
  import opened Months
  import opened IsoDate
  import opened Normalization
  import opened Dates

  /** A character of the numeric date forms: a digit or one of `./-`. */
  predicate NumericChar(c: char) {
    IsDigit(c) || c == '.' || c == '/' || c == '-'
  }

  lemma NumericCharFixed(c: char)
    requires NumericChar(c)
    ensures LowerChar(c) == c && !IsSpace(c) && !IsDash(c) && !IsLetter(c)
  {
  }

  lemma NumericNoSpace(s: string)
    requires forall i :: 0 <= i < |s| ==> NumericChar(s[i])
    ensures forall i :: 0 <= i < |s| ==> !IsSpace(s[i])
  {
    forall i | 0 <= i < |s| ensures !IsSpace(s[i]) {
      NumericCharFixed(s[i]);
    }
  }

  /** A message of digits and `./-` only is already normal and has no white space. */
  lemma NumericSettled(s: string)
    requires forall i :: 0 <= i < |s| ==> NumericChar(s[i])
    ensures Normalize(s) == s
    ensures forall i :: 0 <= i < |s| ==> !IsSpace(s[i])
    ensures Lower(s) == s
  {
    NumericNoSpace(s);
    NumericSettledShape(s);
    NormalizeFixes(s);
    NumericLower(s);
  }

  lemma NumericSettledShape(s: string)
    requires forall i :: 0 <= i < |s| ==> NumericChar(s[i])
    ensures Settled(s) && forall i :: 0 <= i < |s| ==> !IsDash(s[i])
  {
    forall i | 0 <= i < |s| ensures !IsSpace(s[i]) && !IsDash(s[i]) && LowerChar(s[i]) != 'с' && !IsT(s[i]) {
      NumericCharFixed(s[i]);
    }
    forall x | x == 'п' || x == 'д' ensures NoConnective(s, x) {
      forall i: nat | i + 3 < |s| ensures !ConnectiveAt(s, i, x) {
      }
    }
  }

  lemma NumericLower(s: string)
    requires forall i :: 0 <= i < |s| ==> NumericChar(s[i])
    ensures Lower(s) == s
  {
    forall i | 0 <= i < |s| ensures LowerChar(s[i]) == s[i] {
      NumericCharFixed(s[i]);
    }
  }

  /** A token of digits only is never a date: every date shape needs a separator. */
  lemma DigitsTokenFails(t: string, fallbackYear: int)
    requires forall i :: 0 <= i < |t| ==> IsDigit(t[i])
    ensures ParseOneDate(t, fallbackYear).None?
  {
    DigitsSettled(t);
    DigitsNoShape(t, fallbackYear);
  }

  lemma DigitsSettled(t: string)
    requires forall i :: 0 <= i < |t| ==> IsDigit(t[i])
    ensures Lower(Trim(t)) == t
  {
    NumericSettled(t);
    TrimNoop(t);
  }

  lemma DigitsNoShape(t: string, fallbackYear: int)
    requires forall i :: 0 <= i < |t| ==> IsDigit(t[i])
    ensures IsoTokenDate(t).None? && NumericDate(t).None? && NumericShortDate(t, fallbackYear).None?
    ensures NamedDate(t).None? && NamedShortDate(t, fallbackYear).None?
  {
    forall i | 0 <= i < |t| ensures !InClass(DateSep, t[i]) && !IsSpace(t[i]) {
      assert IsDigit(t[i]);
    }
    NoSepNotNumeric(t, fallbackYear);
    NoSpaceNotNamed(t, fallbackYear);
  }

  /** The first hyphen of `s` splits it, when both sides hold text. */
  lemma FirstGoodSplitAt(s: string, i: nat)
    requires GoodSplit(s, i)
    requires forall j :: 0 <= j < i ==> s[j] != '-'
    ensures FirstGoodSplit(s) == Some(i)
  {
    var r := FirstGoodSplit(s);
    assert r.Some?;
    assert !(i < r.value);
  }

  /** Four digits and a hyphen at position `p`: how every ISO date starts. */
  predicate IsoWindowAt(s: string, p: nat) {
    p + 4 < |s| && IsDigit(s[p]) && IsDigit(s[p + 1]) && IsDigit(s[p + 2]) && IsDigit(s[p + 3]) && s[p + 4] == '-'
  }

  /** Nowhere four digits are followed by a hyphen. */
  predicate NoIsoWindow(s: string) {
    forall p: nat :: p < |s| ==> !IsoWindowAt(s, p)
  }

  /** Without four digits before a hyphen neither ISO search finds anything. */
  lemma NoIsoWindowNoIso(s: string)
    requires NoIsoWindow(s)
    ensures IsoRange(s).None?
  {
    forall p | 0 <= p <= |s| ensures IsoPairAt(s, p).None? {
      if p + 10 <= |s| {
        var w := s[p..p + 10];
        assert !IsoShaped(w) by {
          assert !IsoWindowAt(s, p);
          assert w[0] == s[p] && w[1] == s[p + 1] && w[2] == s[p + 2] && w[3] == s[p + 3] && w[4] == s[p + 4];
        }
      }
    }
    IsoCompactUnreachable(s);
  }

  /** An ISO date is neither same-month shorthand nor an ISO pair. */
  lemma LoneIsoNotEarly(s: string, currentYear: int)
    requires IsoShaped(s)
    ensures ParseSameMonthRange(s, currentYear).None? && IsoRange(s).None?
  {
    NumericSettled(s);
    NoSpaceNotSameMonth(s, currentYear);
    LoneIsoNoPair(s);
  }

  /** Same-month shorthand needs a space after the first day. */
  lemma NoSpaceNotSameMonth(s: string, currentYear: int)
    requires forall i :: 0 <= i < |s| ==> !IsSpace(s[i])
    ensures ParseSameMonthRange(s, currentYear).None?
  {
    MatchNeedsClass(SameMonthWithYear, s, 1);
    MatchNeedsClass(SameMonthNoYear, s, 1);
  }

  /** Ten characters hold no two ISO dates. */
  lemma LoneIsoNoPair(s: string)
    requires |s| == 10
    ensures IsoRange(s).None?
  {
    forall p | 0 <= p <= |s| ensures IsoPairAt(s, p).None? {
      if p + 10 <= |s| {
        assert s[p + 10..] == [];
      }
    }
    IsoCompactUnreachable(s);
  }

  /** An ISO date splits at its first hyphen, into the year and `MM-DD`. */
  lemma LoneIsoSplit(s: string)
    requires IsoShaped(s)
    ensures SplitEndpoints(s) == Some((s[..4], s[5..]))
  {
    NumericNoSpace(s);
    forall p | 0 <= p <= |s| ensures !SpacedDashAt(s, p) {
      if p + 3 <= |s| {
        assert s[p..p + 3][0] == s[p];
      }
    }
    assert GoodSplit(s, 4) by {
      assert s[..4][0] == s[0];
      assert s[5..][0] == s[5];
    }
    FirstGoodSplitAt(s, 4);
    var left, right := s[..4], s[5..];
    assert left[0] == s[0] && left[3] == s[3] && right[0] == s[5] && right[4] == s[9];
    TrimNoop(left);
    TrimNoop(right);
  }

  lemma IsoYearDigits(s: string)
    requires IsoShaped(s)
    ensures |s[..4]| == 4 && forall i :: 0 <= i < 4 ==> IsDigit(s[..4][i])
  {
  }

  /** A four-digit year on the left is no date and no bare day, so nothing can pair with it. */
  lemma YearLeftFails(left: string, right: string, currentYear: int)
    requires |left| == 4 && forall i :: 0 <= i < 4 ==> IsDigit(left[i])
    ensures ParseEndpoints(left, right, currentYear).None?
  {
    BareDayFits(left);
    var fallbackYear := FallbackYear(right, currentYear);
    assert CompactRange(left, right, fallbackYear).None?;
    DigitsTokenFails(left, fallbackYear);
  }

  /**
   * A lone ISO date is not a range: it is split at its first hyphen into the
   * year and `MM-DD`, the year alone is no date and cannot borrow a day, so
   * the result is `null` (src/dates.js:184-192, 213-231).
   */
  lemma LoneIsoDateFails(s: string, currentYear: int)
    requires IsoShaped(s)
    ensures ParseDateRangeFlexible(s, currentYear).None?
  {
    NumericSettled(s);
    LoneIsoNotEarly(s, currentYear);
    assert ParseDateRangeFlexible(s, currentYear) == ParseSplitOrSingle(s, currentYear);
    LoneIsoSplit(s);
    assert ParseSplitOrSingle(s, currentYear) == ParseEndpoints(s[..4], s[5..], currentYear);
    IsoYearDigits(s);
    YearLeftFails(s[..4], s[5..], currentYear);
  }

  /** Optional white space: one space or none. */
  function Gap(present: bool): string {
    if present then " " else ""
  }

  /** A character of an ISO pair message: digits, hyphens, the en and em dash, and the space. */
  predicate PairChar(c: char) {
    NumericChar(c) || c == ' ' || IsDash(c)
  }

  lemma PairCharFixed(c: char)
    requires PairChar(c)
    ensures LowerChar(c) == c && UnifyDash(c) == (if IsDash(c) then '-' else c)
    ensures IsSpace(c) <==> c == ' '
    ensures !IsT(c) && LowerChar(c) != 'с' && LowerChar(c) != 'п' && LowerChar(c) != 'д'
  {
  }

  /** A single-spaced message without letters is settled. */
  lemma PairCharsSettled(s: string)
    requires forall i :: 0 <= i < |s| ==> PairChar(s[i])
    requires SingleSpaced(s)
    ensures Settled(s)
  {
    forall i | 0 <= i < |s| - 1 ensures !(LowerChar(s[i]) == 'с' && IsSpace(s[i + 1])) {
      PairCharFixed(s[i]);
    }
    forall i | 0 <= i < |s| - 1 ensures !(IsT(s[i]) && IsO(s[i + 1])) {
      PairCharFixed(s[i]);
    }
    forall x | x == 'п' || x == 'д'
      ensures NoConnective(s, x)
    {
      forall i: nat | i + 3 < |s| ensures !ConnectiveAt(s, i, x) {
        PairCharFixed(s[i + 1]);
      }
    }
  }

  /** The only white space of an ISO pair message is the optional space around the dash. */
  lemma IsoPairSpaced(a: string, b: string, spaceBefore: bool, dash: char, spaceAfter: bool)
    requires IsoShaped(a) && IsoShaped(b)
    requires dash == '-' || IsDash(dash)
    ensures var text := a + Gap(spaceBefore) + [dash] + Gap(spaceAfter) + b;
      SingleSpaced(text) && forall i :: 0 <= i < |text| ==> PairChar(text[i])
  {
    var g1, g2 := Gap(spaceBefore), Gap(spaceAfter);
    var text := a + g1 + [dash] + g2 + b;
    var d := |g1| + 10;
    forall i | 0 <= i < |text|
      ensures PairChar(text[i])
      ensures IsSpace(text[i]) ==> text[i] == ' ' && (i == 10 || i == d + 1)
    {
      if i < 10 {
        assert text[i] == a[i];
      } else if i < d {
        assert text[i] == ' ';
      } else if i == d {
        assert text[i] == dash;
      } else if i < d + 1 + |g2| {
        assert text[i] == ' ';
      } else {
        assert text[i] == b[i - d - 1 - |g2|];
      }
    }
    assert text[d] == dash;
    assert text[0] == a[0] && text[|text| - 1] == b[9];
  }

  /** `a`, optional space, a hyphen or dash, optional space, `b`: normalisation only unifies the dash. */
  lemma IsoPairNormalizes(a: string, b: string, spaceBefore: bool, dash: char, spaceAfter: bool)
    requires IsoShaped(a) && IsoShaped(b)
    requires dash == '-' || IsDash(dash)
    ensures Normalize(a + Gap(spaceBefore) + [dash] + Gap(spaceAfter) + b)
      == a + Gap(spaceBefore) + "-" + Gap(spaceAfter) + b
  {
    var text := a + Gap(spaceBefore) + [dash] + Gap(spaceAfter) + b;
    IsoPairSpaced(a, b, spaceBefore, dash, spaceAfter);
    PairCharsSettled(text);
    NormalizeSettled(text);
    IsoPairUnified(a, b, spaceBefore, dash, spaceAfter);
  }

  /** Unifying the dashes of an ISO pair message turns its one dash into a hyphen. */
  lemma IsoPairUnified(a: string, b: string, spaceBefore: bool, dash: char, spaceAfter: bool)
    requires IsoShaped(a) && IsoShaped(b)
    requires dash == '-' || IsDash(dash)
    ensures UnifyDashes(a + Gap(spaceBefore) + [dash] + Gap(spaceAfter) + b)
      == a + Gap(spaceBefore) + "-" + Gap(spaceAfter) + b
  {
    var g1, g2 := Gap(spaceBefore), Gap(spaceAfter);
    UnifyDashesAppend(a + g1 + [dash] + g2, b);
    UnifyDashesAppend(a + g1 + [dash], g2);
    UnifyDashesAppend(a + g1, [dash]);
    UnifyDashesAppend(a, g1);
    IsoNoDash(a);
    IsoNoDash(b);
    UnifyDashesFixes(g1);
    UnifyDashesFixes(g2);
    assert UnifyDashes([dash]) == "-";
  }

  /** An ISO date has no en or em dash. */
  lemma IsoNoDash(s: string)
    requires IsoShaped(s)
    ensures UnifyDashes(s) == s
  {
    forall i | 0 <= i < |s| ensures !IsDash(s[i]) {
      if i != 4 && i != 7 {
        assert IsDigit(s[i]);
      }
    }
    UnifyDashesFixes(s);
  }

  /** A message that starts with a year and a hyphen is not same-month shorthand: its first number is too long. */
  lemma YearFirstNotSameMonth(a: string, rest: string, currentYear: int)
    requires IsoShaped(a)
    ensures ParseSameMonthRange(a + rest, currentYear).None?
  {
    var s := a + rest;
    assert s == a[..4] + (a[4..] + rest);
    assert (a[4..] + rest)[0] == '-';
    MatchHead(SameMonthWithYear, a[..4], a[4..] + rest);
    MatchHead(SameMonthNoYear, a[..4], a[4..] + rest);
  }

  /** An ISO pair at the start of the message is the one the search returns. */
  lemma IsoPairAtStart(s: string)
    requires IsoPairAt(s, 0).Some?
    ensures IsoRange(s) == Some(CompareOrder(IsoPairAt(s, 0).value.0, IsoPairAt(s, 0).value.1))
  {
    var r := IsoPairPosition(s);
    assert r.Some?;
    assert !(0 < r.value);
    assert FindIsoPair(s) == IsoPairAt(s, 0);
  }

  /** A message whose normal form is not empty is parsed through its normal form. */
  lemma FlexibleOfNormalized(text: string, norm: string, currentYear: int)
    requires Normalize(text) == norm && norm != []
    ensures ParseDateRangeFlexible(text, currentYear) == ParseNormalized(norm, currentYear)
  {
  }

  /** The ISO pair search finds `a` and `b` at the very start. */
  lemma IsoPairFound(a: string, b: string, spaceBefore: bool, spaceAfter: bool)
    requires IsoShaped(a) && IsoShaped(b)
    ensures var norm := a + Gap(spaceBefore) + "-" + Gap(spaceAfter) + b;
      IsoRange(norm) == Some(CompareOrder(a, b))
  {
    var g1, g2 := Gap(spaceBefore), Gap(spaceAfter);
    var norm := a + (g1 + ("-" + (g2 + b)));
    IsoPairAtNested(a, g1, g2, b);
    RegroupNested(a, g1, "-", g2, b);
    IsoPairAtStart(norm);
  }

  lemma RegroupNested(a: string, b: string, c: string, d: string, e: string)
    ensures a + (b + (c + (d + e))) == a + b + c + d + e
  {
  }

  /** The pair matcher reads `a`, the blank `g1`, the hyphen, the blank `g2` and `b`. */
  lemma IsoPairAtNested(a: string, g1: string, g2: string, b: string)
    requires IsoShaped(a) && IsoShaped(b) && Blank(g1) && Blank(g2)
    ensures IsoPairAt(a + (g1 + ("-" + (g2 + b))), 0) == Some((a, b))
  {
    var t1 := g1 + ("-" + (g2 + b));
    PairTail(t1, g1, g2, b);
    PairHead(a + t1, a, t1, |g1|, |g2|);
  }

  /** After the first date: the blank, the hyphen, the blank and the second date. */
  lemma PairTail(t1: string, g1: string, g2: string, b: string)
    requires t1 == g1 + ("-" + (g2 + b))
    requires Blank(g1) && Blank(g2) && IsoShaped(b)
    ensures |t1| == |g1| + 1 + |g2| + 10
    ensures LeadingSpaces(t1) == |g1| && t1[|g1|] == '-'
    ensures LeadingSpaces(t1[|g1| + 1..]) == |g2| && t1[|g1| + 1 + |g2|..] == b
  {
    var t2 := "-" + (g2 + b);
    LeadingSpacesOf(g1, t2);
    assert t1[|g1|..] == t2;
    assert t1[|g1| + 1..] == g2 + b;
    assert b[0] == b[..4][0];
    LeadingSpacesOf(g2, b);
    DropDrop(t1, |g1| + 1, |g2|);
  }

  /** The first date, then a tail the pair matcher reads to its end. */
  lemma PairHead(s: string, a: string, t1: string, n1: nat, n2: nat)
    requires s == a + t1 && IsoShaped(a)
    requires |t1| == n1 + 1 + n2 + 10
    requires LeadingSpaces(t1) == n1 && t1[n1] == '-'
    requires LeadingSpaces(t1[n1 + 1..]) == n2 && IsoShaped(t1[n1 + 1 + n2..])
    ensures IsoPairAt(s, 0) == Some((a, t1[n1 + 1 + n2..]))
  {
    assert s[0..10] == a;
    assert s[10..] == t1;
    var k := 10 + n1;
    DropDrop(s, 10, n1 + 1);
    DropDrop(s, 10, n1 + 1 + n2);
    var q := k + 1 + n2;
    assert s[k] == t1[n1];
    assert s[k + 1..] == t1[n1 + 1..];
    assert s[q..q + 10] == s[q..] == t1[n1 + 1 + n2..];
    IsoPairAtReads(s, k, q);
  }

  lemma DropDrop(s: string, i: nat, j: nat)
    requires i + j <= |s|
    ensures s[i..][j..] == s[i + j..]
  {
  }

  /** The pair matcher at the start, given where the hyphen and the second date are. */
  lemma IsoPairAtReads(s: string, k: nat, q: nat)
    requires 10 <= k < |s| && q + 10 <= |s| && k < q
    requires IsoShaped(s[0..10]) && LeadingSpaces(s[10..]) == k - 10 && s[k] == '-'
    requires LeadingSpaces(s[k + 1..]) == q - k - 1 && IsoShaped(s[q..q + 10])
    ensures IsoPairAt(s, 0) == Some((s[0..10], s[q..q + 10]))
  {
  }

  /**
   * Two ISO dates around a hyphen, en dash or em dash, with or without a
   * space on either side, come back verbatim, only put in order
   * (src/dates.js:152-157, 166-169).
   */
  lemma IsoPairVerbatim(a: string, b: string, spaceBefore: bool, dash: char, spaceAfter: bool, currentYear: int)
    requires IsoShaped(a) && IsoShaped(b)
    requires dash == '-' || IsDash(dash)
    ensures ParseDateRangeFlexible(a + Gap(spaceBefore) + [dash] + Gap(spaceAfter) + b, currentYear)
      == Some(CompareOrder(a, b))
  {
    var text := a + Gap(spaceBefore) + [dash] + Gap(spaceAfter) + b;
    IsoPairNormalizes(a, b, spaceBefore, dash, spaceAfter);
    var norm := a + Gap(spaceBefore) + "-" + Gap(spaceAfter) + b;
    RegroupHead(a, Gap(spaceBefore), "-", Gap(spaceAfter), b);
    YearFirstNotSameMonth(a, Gap(spaceBefore) + "-" + Gap(spaceAfter) + b, currentYear);
    IsoPairFound(a, b, spaceBefore, spaceAfter);
    assert ParseNormalized(norm, currentYear) == Some(CompareOrder(a, b));
    FlexibleOfNormalized(text, norm, currentYear);
  }

  // The compact form `D-D.M[.Y]`.

  /** A day number is one or two digits. */
  lemma DayDigits(d: string)
    requires IsDay(d)
    ensures 1 <= |d| <= 2 && forall i :: 0 <= i < |d| ==> IsDigit(d[i])
    ensures DigitsValue(d) < 100
  {
    DigitsValueUpperBound(d);
  }

  /** Without a year the right part `D.M` is no `D.M.YYYY`, and it is `D.M`. */
  lemma CompactRangeNoYear(d1: string, d2: string, sep: char, m: string, fallbackYear: int)
    requires IsDay(d1) && IsDay(d2) && IsDay(m) && InClass(DateSep, sep)
    ensures CompactRange(d1, d2 + [sep] + m, fallbackYear)
      == Some(CompareOrder(ToISO(fallbackYear, DigitsValue(m), DigitsValue(d1)),
                           ToISO(fallbackYear, DigitsValue(m), DigitsValue(d2))))
  {
    BareDayFits(d1);
    ShortRightNotLong(d2, sep, m);
    ShortRightGroups(d2, sep, m);
  }

  /** `D.M` stops before the second separator of `D.M.YYYY`. */
  lemma ShortRightNotLong(d2: string, sep: char, m: string)
    requires IsDay(d2) && IsDay(m) && InClass(DateSep, sep)
    ensures Match(NumericWithYear, d2 + [sep] + m).None?
  {
    Assoc(d2, [sep], m);
    MatchHead(NumericWithYear, d2, [sep] + m);
    assert NumericWithYear[1..] == [Sep, Day, Sep, Year4];
    DayWithoutYear(sep, m);
  }

  lemma DayWithoutYear(sep: char, m: string)
    requires IsDay(m) && InClass(DateSep, sep)
    ensures Match([Sep, Day, Sep, Year4], [sep] + m).None?
  {
    MatchHead([Sep, Day, Sep, Year4], [sep], m);
    assert [Sep, Day, Sep, Year4][1..] == [Day, Sep, Year4];
    assert m + [] == m;
    MatchHead([Day, Sep, Year4], m, []);
    assert [Day, Sep, Year4][1..] == [Sep, Year4];
    MatchStops([Sep, Year4], []);
  }

  lemma ShortRightGroups(d2: string, sep: char, m: string)
    requires IsDay(d2) && IsDay(m) && InClass(DateSep, sep)
    ensures Match(NumericNoYear, d2 + [sep] + m) == Some([d2, [sep], m])
  {
    ConcatThree(d2, [sep], m);
    MatchComplete(NumericNoYear, [d2, [sep], m]);
  }

  /** With a four-digit year the right part `D.M.YYYY` gives month and year to both days. */
  lemma CompactRangeWithYear(d1: string, d2: string, s1: char, m: string, s2: char, y: string, fallbackYear: int)
    requires IsDay(d1) && IsDay(d2) && IsDay(m) && Fits(Year4, y)
    requires InClass(DateSep, s1) && InClass(DateSep, s2)
    ensures CompactRange(d1, d2 + [s1] + m + [s2] + y, fallbackYear)
      == Some(CompareOrder(ToISO(DigitsValue(y), DigitsValue(m), DigitsValue(d1)),
                           ToISO(DigitsValue(y), DigitsValue(m), DigitsValue(d2))))
  {
    var right := d2 + [s1] + m + [s2] + y;
    var g := [d2, [s1], m, [s2], y];
    LongRightGroups(d2, s1, m, s2, y);
    CompactWithYearGroups(d1, right, fallbackYear, g);
    assert g[4] == y && g[2] == m && g[0] == d2;
    CompactLeftDay(d1, DigitsValue(y), m, d2);
  }

  lemma LongRightGroups(d2: string, s1: char, m: string, s2: char, y: string)
    requires IsDay(d2) && IsDay(m) && Fits(Year4, y)
    requires InClass(DateSep, s1) && InClass(DateSep, s2)
    ensures Match(NumericWithYear, d2 + [s1] + m + [s2] + y) == Some([d2, [s1], m, [s2], y])
  {
    ConcatFive(d2, [s1], m, [s2], y);
    MatchComplete(NumericWithYear, [d2, [s1], m, [s2], y]);
  }

  /** A right part that fits `D.M.YYYY` decides the compact range through its groups. */
  lemma CompactWithYearGroups(left: string, right: string, fallbackYear: int, g: seq<string>)
    requires Match(NumericWithYear, right) == Some(g)
    ensures |g| == 5 && IsDay(g[2]) && IsDay(g[0])
    ensures CompactRange(left, right, fallbackYear) == CompactLeft(left, DigitsValue(g[4]), g[2], g[0])
  {
  }

  /** A bare day on the left shares the month and year. */
  lemma CompactLeftDay(left: string, year: int, month: string, d2: string)
    requires IsDay(left) && IsDay(month) && IsDay(d2)
    ensures CompactLeft(left, year, month, d2)
      == Some(CompareOrder(ToISO(year, DigitsValue(month), DigitsValue(left)), ToISO(year, DigitsValue(month), DigitsValue(d2))))
  {
    BareDayFits(left);
    SharedMonthOf(year, month, left, d2);
  }

  lemma SharedMonthOf(year: int, m: string, d1: string, d2: string)
    requires IsDay(m) && IsDay(d1) && IsDay(d2)
    ensures SharedMonth(year, m, d1, d2)
      == CompareOrder(ToISO(year, DigitsValue(m), DigitsValue(d1)), ToISO(year, DigitsValue(m), DigitsValue(d2)))
  {
  }

  /** `D.M` holds no `20dd`: every four characters of it contain the separator. */
  lemma ShortRightHasNoYear(d2: string, sep: char, m: string)
    requires IsDay(d2) && IsDay(m) && InClass(DateSep, sep)
    ensures YearIn(d2 + [sep] + m).None?
  {
    var right := d2 + [sep] + m;
    assert right[|d2|] == sep;
    forall p | 0 <= p <= |right| ensures !YearAt(right, p) {
    }
  }

  /** Non-digits no more than three apart from the start on leave no room for four digits before a hyphen. */
  lemma NoIsoWindowFromGaps(s: string, i1: nat, i2: nat, i3: nat)
    requires i1 <= 2 && i1 < i2 <= i1 + 3 && i2 < i3 <= i2 + 3
    requires forall i :: 0 <= i < |s| ==> (IsDigit(s[i]) <==> i != i1 && i != i2 && i != i3)
    ensures NoIsoWindow(s)
  {
    forall p: nat | p < |s| ensures !IsoWindowAt(s, p) {
      if p + 4 < |s| {
        if p <= i3 {
          var j := if p <= i1 then i1 else if p <= i2 then i2 else i3;
          assert p <= j <= p + 3;
          assert !IsDigit(s[j]);
        } else {
          assert IsDigit(s[p + 4]);
        }
      }
    }
  }

  /**
   * No four digits before a hyphen in `D-D.M` followed by `tail`, where
   * `tail` is empty or a non-digit and then digits only.
   */
  lemma CompactNoIsoWindow(d1: string, d2: string, sep: char, m: string, tail: string)
    requires IsDay(d1) && IsDay(d2) && IsDay(m) && InClass(DateSep, sep)
    requires tail != [] ==> !IsDigit(tail[0]) && forall i :: 1 <= i < |tail| ==> IsDigit(tail[i])
    ensures NoIsoWindow(d1 + "-" + d2 + [sep] + m + tail)
    ensures tail == [] ==> NoIsoWindow(d1 + "-" + (d2 + [sep] + m))
  {
    var text := d1 + "-" + d2 + [sep] + m + tail;
    var i1 := |d1|;
    var i2 := i1 + 1 + |d2|;
    var i3 := i2 + 1 + |m|;
    forall i | 0 <= i < |text| ensures IsDigit(text[i]) <==> i != i1 && i != i2 && i != i3 {
      if i < i1 {
        assert text[i] == d1[i];
      } else if i1 < i < i2 {
        assert text[i] == d2[i - i1 - 1];
      } else if i2 < i < i3 {
        assert text[i] == m[i - i2 - 1];
      } else if i >= i3 {
        assert text[i] == tail[i - i3];
      }
    }
    NoIsoWindowFromGaps(text, i1, i2, i3);
    assert text == d1 + "-" + (d2 + [sep] + m) + tail;
  }

  /** `D-R` with `R` made of digits and separators, starting and ending in a digit, splits at its first hyphen. */
  lemma CompactSplit(d1: string, right: string)
    requires IsDay(d1)
    requires right != [] && IsDigit(right[0]) && IsDigit(right[|right| - 1])
    requires forall i :: 0 <= i < |right| ==> NumericChar(right[i])
    ensures var text := d1 + "-" + right;
      (forall i :: 0 <= i < |text| ==> NumericChar(text[i])) && SplitEndpoints(text) == Some((d1, right))
  {
    var text := d1 + "-" + right;
    var k := |d1|;
    forall i | 0 <= i < |text| ensures NumericChar(text[i]) {
      if i < k {
        assert text[i] == d1[i];
      } else if i > k {
        assert text[i] == right[i - k - 1];
      }
    }
    NumericNoSpace(text);
    forall p | 0 <= p <= |text| ensures !SpacedDashAt(text, p) {
      if p + 3 <= |text| {
        assert text[p..p + 3][0] == text[p];
      }
    }
    assert text[..k] == d1 && text[k + 1..] == right;
    assert d1[0] == text[..k][0] && right[0] == text[k + 1..][0];
    assert GoodSplit(text, k);
    FirstGoodSplitAt(text, k);
    TrimNoop(d1);
    TrimNoop(right);
  }

  /** A message without white space is no same-month shorthand, and without `dddd-` no ISO pair. */
  lemma CompactNotEarly(text: string, currentYear: int)
    requires forall i :: 0 <= i < |text| ==> NumericChar(text[i])
    requires NoIsoWindow(text)
    ensures ParseSameMonthRange(text, currentYear).None? && IsoRange(text).None?
  {
    NumericNoSpace(text);
    MatchNeedsClass(SameMonthWithYear, text, 1);
    MatchNeedsClass(SameMonthNoYear, text, 1);
    NoIsoWindowNoIso(text);
  }

  /** A numeric message that splits, and is neither same-month nor ISO, is parsed as its two endpoints. */
  lemma NumericEndpoints(text: string, left: string, right: string, currentYear: int)
    requires forall i :: 0 <= i < |text| ==> NumericChar(text[i])
    requires text != [] && NoIsoWindow(text)
    requires SplitEndpoints(text) == Some((left, right))
    ensures ParseDateRangeFlexible(text, currentYear) == ParseEndpoints(left, right, currentYear)
  {
    NumericSettled(text);
    CompactNotEarly(text, currentYear);
    FlexibleOfNormalized(text, text, currentYear);
  }

  /** The characters of `D.M` are numeric, and it starts and ends with a digit. */
  lemma ShortRightNumeric(d2: string, sep: char, m: string)
    requires IsDay(d2) && IsDay(m) && InClass(DateSep, sep)
    ensures var right := d2 + [sep] + m;
      IsDigit(right[0]) && IsDigit(right[|right| - 1]) && forall i :: 0 <= i < |right| ==> NumericChar(right[i])
  {
    var right := d2 + [sep] + m;
    forall i | 0 <= i < |right| ensures NumericChar(right[i]) {
      if i < |d2| {
        assert right[i] == d2[i];
      } else if i > |d2| {
        assert right[i] == m[i - |d2| - 1];
      }
    }
  }

  /** The endpoints `D1` and `D2.M`: the compact shortcut with `currentYear`. */
  lemma ShortEndpoints(d1: string, d2: string, sep: char, m: string, currentYear: int)
    requires IsDay(d1) && IsDay(d2) && IsDay(m) && InClass(DateSep, sep)
    ensures ParseEndpoints(d1, d2 + [sep] + m, currentYear)
      == Some(CompareOrder(ToISO(currentYear, DigitsValue(m), DigitsValue(d1)),
                           ToISO(currentYear, DigitsValue(m), DigitsValue(d2))))
  {
    ShortRightHasNoYear(d2, sep, m);
    CompactRangeNoYear(d1, d2, sep, m, currentYear);
  }

  /**
   * `D1-D2.M`: both days in month `M` of `currentYear`, the smaller first
   * (src/dates.js:195-211). The right part never holds a `20dd`, so the year
   * is always `currentYear`.
   */
  lemma CompactRangeShared(d1: string, d2: string, sep: char, m: string, currentYear: int)
    requires IsDay(d1) && IsDay(d2) && IsDay(m) && InClass(DateSep, sep)
    ensures ParseDateRangeFlexible(d1 + "-" + d2 + [sep] + m, currentYear)
      == Some(CompareOrder(ToISO(currentYear, DigitsValue(m), DigitsValue(d1)),
                           ToISO(currentYear, DigitsValue(m), DigitsValue(d2))))
  {
    var right := d2 + [sep] + m;
    var text := d1 + "-" + right;
    assert text == d1 + "-" + d2 + [sep] + m;
    ShortRightNumeric(d2, sep, m);
    CompactSplit(d1, right);
    CompactNoIsoWindow(d1, d2, sep, m, []);
    NumericEndpoints(text, d1, right, currentYear);
    ShortEndpoints(d1, d2, sep, m, currentYear);
  }

  /** The characters of `D.M.YYYY` are numeric, and it starts and ends with a digit. */
  lemma LongRightNumeric(d2: string, s1: char, m: string, s2: char, y: string)
    requires IsDay(d2) && IsDay(m) && Fits(Year4, y) && InClass(DateSep, s1) && InClass(DateSep, s2)
    ensures var right := d2 + [s1] + m + [s2] + y;
      IsDigit(right[0]) && IsDigit(right[|right| - 1]) && forall i :: 0 <= i < |right| ==> NumericChar(right[i])
  {
    var right := d2 + [s1] + m + [s2] + y;
    var i2 := |d2|;
    var i3 := i2 + 1 + |m|;
    forall i | 0 <= i < |right| ensures NumericChar(right[i]) {
      if i < i2 {
        assert right[i] == d2[i];
      } else if i2 < i < i3 {
        assert right[i] == m[i - i2 - 1];
      } else if i > i3 {
        assert right[i] == y[i - i3 - 1];
      }
    }
  }

  /** The endpoints `D1` and `D2.M.YYYY`: the compact shortcut with the explicit year. */
  lemma LongEndpoints(d1: string, d2: string, s1: char, m: string, s2: char, y: string, currentYear: int)
    requires IsDay(d1) && IsDay(d2) && IsDay(m) && Fits(Year4, y) && InClass(DateSep, s1) && InClass(DateSep, s2)
    ensures ParseEndpoints(d1, d2 + [s1] + m + [s2] + y, currentYear)
      == Some(CompareOrder(ToISO(DigitsValue(y), DigitsValue(m), DigitsValue(d1)),
                           ToISO(DigitsValue(y), DigitsValue(m), DigitsValue(d2))))
  {
    var right := d2 + [s1] + m + [s2] + y;
    var fallbackYear := FallbackYear(right, currentYear);
    CompactRangeWithYear(d1, d2, s1, m, s2, y, fallbackYear);
  }

  /** The message `D1-D2.M.YYYY` has no `dddd-`. */
  lemma LongNoIsoWindow(d1: string, d2: string, s1: char, m: string, s2: char, y: string)
    requires IsDay(d1) && IsDay(d2) && IsDay(m) && Fits(Year4, y) && InClass(DateSep, s1) && InClass(DateSep, s2)
    ensures NoIsoWindow(d1 + "-" + (d2 + [s1] + m + [s2] + y))
  {
    var tail := [s2] + y;
    assert forall i :: 1 <= i < |tail| ==> tail[i] == y[i - 1];
    CompactNoIsoWindow(d1, d2, s1, m, tail);
    assert d1 + "-" + (d2 + [s1] + m + [s2] + y) == d1 + "-" + d2 + [s1] + m + tail;
  }

  /**
   * `D1-D2.M.YYYY`: both days in month `M` of year `YYYY`, the smaller first
   * (src/dates.js:195-211).
   */
  lemma CompactRangeWithYearShared(d1: string, d2: string, s1: char, m: string, s2: char, y: string, currentYear: int)
    requires IsDay(d1) && IsDay(d2) && IsDay(m) && Fits(Year4, y)
    requires InClass(DateSep, s1) && InClass(DateSep, s2)
    ensures ParseDateRangeFlexible(d1 + "-" + d2 + [s1] + m + [s2] + y, currentYear)
      == Some(CompareOrder(ToISO(DigitsValue(y), DigitsValue(m), DigitsValue(d1)),
                           ToISO(DigitsValue(y), DigitsValue(m), DigitsValue(d2))))
  {
    var right := d2 + [s1] + m + [s2] + y;
    var text := d1 + "-" + right;
    assert text == d1 + "-" + d2 + [s1] + m + [s2] + y;
    LongRightNumeric(d2, s1, m, s2, y);
    CompactSplit(d1, right);
    LongNoIsoWindow(d1, d2, s1, m, s2, y);
    NumericEndpoints(text, d1, right, currentYear);
    LongEndpoints(d1, d2, s1, m, s2, y, currentYear);
  }

  // The same-month shorthand `d1 d2 month [20yy]`.

  /** `d1 d2 month` has no fourth group to be a year. */
  lemma SameMonthNoFourthGroup(d1: string, d2: string, w: string)
    requires IsDay(d1) && IsDay(d2) && Fits(Word, w)
    ensures Match(SameMonthWithYear, d1 + (" " + (d2 + " " + w))).None?
  {
    var p3, p2, p1 := [Spaces, Word, Spaces, Year4],
      [Day, Spaces, Word, Spaces, Year4], [Spaces, Day, Spaces, Word, Spaces, Year4];
    WordWithoutYear(w);
    assert p2[1..] == p3;
    MatchHead(p2, d2, " " + w);
    Assoc(d2, " ", w);
    assert p1[1..] == p2;
    MatchHead(p1, " ", d2 + " " + w);
    assert SameMonthWithYear[1..] == p1;
    MatchHead(SameMonthWithYear, d1, " " + (d2 + " " + w));
  }

  /** A space and a word that end the message leave the year group empty. */
  lemma WordWithoutYear(w: string)
    requires Fits(Word, w)
    ensures Match([Spaces, Word, Spaces, Year4], " " + w).None?
  {
    var p5, p4, p3 := [Spaces, Year4], [Word, Spaces, Year4], [Spaces, Word, Spaces, Year4];
    MatchStops(p5, []);
    assert w + [] == w && p4[1..] == p5;
    MatchHead(p4, w, []);
    assert p3[1..] == p4;
    MatchHead(p3, " ", w);
  }

  /** `d1 d2 month` is the shorthand without a year. */
  lemma SameMonthGroups(d1: string, d2: string, w: string)
    requires IsDay(d1) && IsDay(d2) && Fits(Word, w)
    ensures MatchSameMonth(d1 + " " + d2 + " " + w) == Some(SameMonthShape(d1, d2, w, None))
  {
    SameMonthNoFourthGroup(d1, d2, w);
    assert d1 + " " + d2 + " " + w == d1 + (" " + (d2 + " " + w));
    var gs := [d1, " ", d2, " ", w];
    ConcatFive(d1, " ", d2, " ", w);
    MatchComplete(SameMonthNoYear, gs);
    assert gs[0] == d1 && gs[2] == d2 && gs[4] == w;
  }

  /** `d1 d2 month 20yy` is the shorthand with its year. */
  lemma SameMonthGroupsWithYear(d1: string, d2: string, w: string, y: string)
    requires IsDay(d1) && IsDay(d2) && Fits(Word, w) && Fits(Year4, y) && y[..2] == "20"
    ensures MatchSameMonth(d1 + " " + d2 + " " + w + " " + y) == Some(SameMonthShape(d1, d2, w, Some(y)))
  {
    var gs := [d1, " ", d2, " ", w, " ", y];
    ConcatSeven(d1, " ", d2, " ", w, " ", y);
    MatchComplete(SameMonthWithYear, gs);
    assert gs[0] == d1 && gs[2] == d2 && gs[4] == w && gs[6] == y;
  }

  /**
   * A message that normalises to `d1 d2 month`, with a month that resolves:
   * the smaller to the larger day of that month in `currentYear`
   * (src/dates.js:137-148, 163-164).
   */
  lemma SameMonthMessage(text: string, d1: string, d2: string, w: string, currentYear: int)
    requires IsDay(d1) && IsDay(d2) && Fits(Word, w)
    requires Normalize(text) == d1 + " " + d2 + " " + w
    requires ResolveMonth(w).Some?
    ensures var month, a, b := ResolveMonth(w).value, DigitsValue(d1), DigitsValue(d2);
      ParseDateRangeFlexible(text, currentYear)
        == Some(Range(ToISO(currentYear, month, Min(a, b)), ToISO(currentYear, month, Max(a, b))))
  {
    var norm := d1 + " " + d2 + " " + w;
    SameMonthGroups(d1, d2, w);
    FlexibleOfNormalized(text, norm, currentYear);
  }

  /**
   * A message that normalises to `d1 d2 month 20yy`, with a month that
   * resolves: the smaller to the larger day of that month in that year
   * (src/dates.js:137-148, 163-164).
   */
  lemma SameMonthMessageWithYear(text: string, d1: string, d2: string, w: string, y: string, currentYear: int)
    requires IsDay(d1) && IsDay(d2) && Fits(Word, w) && Fits(Year4, y) && y[..2] == "20"
    requires Normalize(text) == d1 + " " + d2 + " " + w + " " + y
    requires ResolveMonth(w).Some?
    ensures var year, month, a, b := DigitsValue(y), ResolveMonth(w).value, DigitsValue(d1), DigitsValue(d2);
      ParseDateRangeFlexible(text, currentYear)
        == Some(Range(ToISO(year, month, Min(a, b)), ToISO(year, month, Max(a, b))))
  {
    var norm := d1 + " " + d2 + " " + w + " " + y;
    SameMonthGroupsWithYear(d1, d2, w, y);
    FlexibleOfNormalized(text, norm, currentYear);
  }

  /** The order of the two days of the shorthand does not matter. */
  lemma SameMonthSwap(text: string, swapped: string, d1: string, d2: string, w: string, currentYear: int)
    requires IsDay(d1) && IsDay(d2) && Fits(Word, w) && ResolveMonth(w).Some?
    requires Normalize(text) == d1 + " " + d2 + " " + w
    requires Normalize(swapped) == d2 + " " + d1 + " " + w
    ensures ParseDateRangeFlexible(text, currentYear) == ParseDateRangeFlexible(swapped, currentYear)
  {
    SameMonthMessage(text, d1, d2, w, currentYear);
    SameMonthMessage(swapped, d2, d1, w, currentYear);
  }

  /** A message without a hyphen holds no ISO pair and does not split. */
  lemma NoHyphenNoSplit(s: string)
    requires forall i :: 0 <= i < |s| ==> s[i] != '-'
    ensures IsoRange(s).None? && SplitEndpoints(s).None?
  {
    NoIsoWindowNoIso(s);
    forall p | 0 <= p <= |s| ensures !SpacedDashAt(s, p) {
      if p + 3 <= |s| {
        assert s[p..p + 3][1] == s[p + 1];
      }
    }
  }

  /** Lower-casing leaves digits and spaces alone. */
  lemma LowerKeepsDigitsAndSpaces(s: string)
    requires forall i :: 0 <= i < |s| ==> IsDigit(s[i]) || s[i] == ' '
    ensures Lower(s) == s
  {
  }

  /** Trimming and lower-casing `d1 d2 word` only lower-cases the word. */
  lemma TwoDaysAndWordToken(d1: string, d2: string, w: string)
    requires IsDay(d1) && IsDay(d2) && Fits(Word, w)
    ensures Lower(Trim(d1 + " " + d2 + " " + w)) == d1 + " " + d2 + " " + Lower(w)
    ensures Fits(Word, Lower(w))
  {
    var norm := d1 + " " + d2 + " " + w;
    TwoDaysAndWordTrimmed(d1, d2, w);
    TwoDaysHead(d1, d2);
    var head := d1 + " " + d2 + " ";
    LowerKeepsDigitsAndSpaces(head);
    LowerConcat(head, w);
  }

  lemma TwoDaysAndWordTrimmed(d1: string, d2: string, w: string)
    requires IsDay(d1) && IsDay(d2) && Fits(Word, w)
    ensures Trim(d1 + " " + d2 + " " + w) == d1 + " " + d2 + " " + w
  {
    var norm := d1 + " " + d2 + " " + w;
    assert norm[0] == d1[0] && norm[|norm| - 1] == w[|w| - 1];
    TrimNoop(norm);
  }

  /** `d1 d2 ` holds digits and spaces only. */
  lemma TwoDaysHead(d1: string, d2: string)
    requires IsDay(d1) && IsDay(d2)
    ensures var head := d1 + " " + d2 + " ";
      forall i :: 0 <= i < |head| ==> IsDigit(head[i]) || head[i] == ' '
  {
    var head := d1 + " " + d2 + " ";
    forall i | 0 <= i < |head| ensures IsDigit(head[i]) || head[i] == ' ' {
      if i < |d1| {
        assert head[i] == d1[i];
      } else if |d1| < i < |d1| + 1 + |d2| {
        assert head[i] == d2[i - |d1| - 1];
      }
    }
  }


  /** No single-date shape fits a day, a space and then a second day. */
  lemma TwoDaysAndWordNoShape(d1: string, d2: string, lw: string, fallbackYear: int)
    requires IsDay(d1) && IsDay(d2) && Fits(Word, lw)
    ensures var t := d1 + " " + d2 + " " + lw;
      IsoTokenDate(t).None? && NumericDate(t).None? && NumericShortDate(t, fallbackYear).None?
      && NamedDate(t).None? && NamedShortDate(t, fallbackYear).None?
  {
    var t := d1 + " " + d2 + " " + lw;
    var head := d1 + " " + d2 + " ";
    forall i | 0 <= i < |t| ensures !InClass(DateSep, t[i]) {
      if i < |d1| {
        assert t[i] == d1[i];
      } else if |d1| < i < |d1| + 1 + |d2| {
        assert t[i] == d2[i - |d1| - 1];
      } else if i > |d1| + 1 + |d2| {
        assert t[i] == lw[i - |head|];
      }
    }
    MatchNeedsClass(NumericWithYear, t, 1);
    MatchNeedsClass(NumericNoYear, t, 1);
    Regroup(d1, " ", d2, " ", lw);
    NamedShapesNeedWord(d1, d2, lw);
  }

  lemma RegroupHead(a: string, b: string, c: string, d: string, e: string)
    ensures a + b + c + d + e == a + (b + c + d + e)
  {
  }

  lemma Regroup(a: string, b: string, c: string, d: string, e: string)
    ensures a + b + c + d + e == a + (b + (c + d + e))
  {
  }

  /** The named-month shapes fail on a day, a space and a second day. */
  lemma NamedShapesNeedWord(d1: string, d2: string, lw: string)
    requires IsDay(d1) && IsDay(d2) && Fits(Word, lw)
    ensures Match(NamedWithYear, d1 + (" " + (d2 + " " + lw))).None?
    ensures Match(NamedNoYear, d1 + (" " + (d2 + " " + lw))).None?
  {
    var rest := d2 + " " + lw;
    MatchStops([Word, Spaces, Year4], rest);
    assert NamedWithYear[1..] == [Spaces, Word, Spaces, Year4] && NamedWithYear[1..][1..] == [Word, Spaces, Year4];
    MatchHead(NamedWithYear[1..], " ", rest);
    MatchHead(NamedWithYear, d1, " " + rest);
    MatchStops([Word], rest);
    assert NamedNoYear[1..] == [Spaces, Word] && NamedNoYear[1..][1..] == [Word];
    MatchHead(NamedNoYear[1..], " ", rest);
    MatchHead(NamedNoYear, d1, " " + rest);
  }

  lemma TwoDaysAndWordNoHyphen(d1: string, d2: string, w: string)
    requires IsDay(d1) && IsDay(d2) && Fits(Word, w)
    ensures var norm := d1 + " " + d2 + " " + w;
      forall i :: 0 <= i < |norm| ==> norm[i] != '-'
  {
    var norm := d1 + " " + d2 + " " + w;
    forall i | 0 <= i < |norm| ensures norm[i] != '-' {
      if i < |d1| {
        assert norm[i] == d1[i];
      } else if |d1| < i < |d1| + 1 + |d2| {
        assert norm[i] == d2[i - |d1| - 1];
      } else if i > |d1| + 1 + |d2| {
        assert norm[i] == w[i - |d1| - |d2| - 2];
      }
    }
  }

  /**
   * With a month word that does not resolve, `d1 d2 word` is not taken as
   * the shorthand; the later strategies find no hyphen and no single date in
   * it, so the result is `null` (src/dates.js:137-148, 163-164, 184-190).
   */
  lemma SameMonthUnresolved(text: string, d1: string, d2: string, w: string, currentYear: int)
    requires IsDay(d1) && IsDay(d2) && Fits(Word, w)
    requires Normalize(text) == d1 + " " + d2 + " " + w
    requires ResolveMonth(w).None?
    ensures ParseSameMonthRange(Normalize(text), currentYear).None?
    ensures ParseDateRangeFlexible(text, currentYear).None?
  {
    var norm := d1 + " " + d2 + " " + w;
    SameMonthGroups(d1, d2, w);
    TwoDaysAndWordNoHyphen(d1, d2, w);
    NoHyphenNoSplit(norm);
    TwoDaysAndWordToken(d1, d2, w);
    TwoDaysAndWordNoShape(d1, d2, Lower(w), currentYear);
    assert ParseOneDate(norm, currentYear).None?;
    assert ParseNormalized(norm, currentYear).None?;
    FlexibleOfNormalized(text, norm, currentYear);
  }

  // A named-month range `D1-D2 month YYYY`, whose left day borrows from the right.

  /** `D month YYYY` has no separator of the numeric forms and starts and ends with a digit. */
  lemma NamedChars(d: string, w: string, y: string)
    requires IsDay(d) && Fits(Word, w) && Fits(Year4, y)
    ensures var t := d + " " + w + " " + y;
      IsDigit(t[0]) && IsDigit(t[|t| - 1]) && forall i :: 0 <= i < |t| ==> !InClass(DateSep, t[i])
  {
    var t := d + " " + w + " " + y;
    forall i | 0 <= i < |t| ensures !InClass(DateSep, t[i]) {
      if i < |d| {
        assert t[i] == d[i];
      } else if |d| < i < |d| + 1 + |w| {
        assert t[i] == w[i - |d| - 1];
      } else if i > |d| + 1 + |w| {
        assert t[i] == y[i - |d| - |w| - 2];
      }
    }
    assert t[|t| - 1] == y[3];
  }

  /** Trimming and lower-casing `D month YYYY` only lower-cases the month word. */
  lemma NamedToken(d: string, w: string, y: string)
    requires IsDay(d) && Fits(Word, w) && Fits(Year4, y)
    ensures Lower(Trim(d + " " + w + " " + y)) == d + " " + Lower(w) + " " + y
    ensures Fits(Word, Lower(w))
  {
    NamedTrimmed(d, w, y);
    NamedLower(d, w, y);
  }

  lemma NamedTrimmed(d: string, w: string, y: string)
    requires IsDay(d) && Fits(Word, w) && Fits(Year4, y)
    ensures Trim(d + " " + w + " " + y) == d + " " + w + " " + y
  {
    NamedChars(d, w, y);
    TrimNoop(d + " " + w + " " + y);
  }

  lemma NamedLower(d: string, w: string, y: string)
    requires IsDay(d) && Fits(Word, w) && Fits(Year4, y)
    ensures Lower(d + " " + w + " " + y) == d + " " + Lower(w) + " " + y
  {
    var a := d + " ";
    var b := a + w;
    LowerKeepsDigitsAndSpaces(a);
    LowerKeepsDigitsAndSpaces(" ");
    LowerKeepsDigitsAndSpaces(y);
    LowerConcat(a, w);
    LowerConcat(b, " ");
    LowerConcat(b + " ", y);
  }

  /**
   * `D month YYYY` with a month word that resolves is read day first, in
   * that month and year (src/dates.js:98-102).
   */
  lemma NamedDateReads(d: string, w: string, y: string, fallbackYear: int)
    requires IsDay(d) && Fits(Word, w) && Fits(Year4, y) && ResolveMonth(w).Some?
    ensures ParseOneDate(d + " " + w + " " + y, fallbackYear)
      == Some(ToISO(DigitsValue(y), ResolveMonth(w).value, DigitsValue(d)))
  {
    NamedToken(d, w, y);
    var lw := Lower(w);
    ResolveByStem(w);
    ResolveByStem(lw);
    LowerIdempotent(w);
    NamedShapes(d, lw, y, fallbackYear);
  }

  /** Of the single-date shapes, only `D month YYYY` fits `D month YYYY`. */
  lemma NamedShapes(d: string, w: string, y: string, fallbackYear: int)
    requires IsDay(d) && Fits(Word, w) && Fits(Year4, y)
    ensures var t := d + " " + w + " " + y;
      && IsoTokenDate(t).None? && NumericDate(t).None? && NumericShortDate(t, fallbackYear).None?
      && NamedDate(t) == match ResolveMonth(w) case Some(m) => Some(ToISO(DigitsValue(y), m, DigitsValue(d))) case None => None
  {
    NamedChars(d, w, y);
    NoSepNotNumeric(d + " " + w + " " + y, fallbackYear);
    NamedGroups(d, w, y);
  }

  /** Without `.`, `/` or `-` no numeric shape fits. */
  lemma NoSepNotNumeric(t: string, fallbackYear: int)
    requires forall i :: 0 <= i < |t| ==> !InClass(DateSep, t[i])
    ensures IsoTokenDate(t).None? && NumericDate(t).None? && NumericShortDate(t, fallbackYear).None?
  {
    if |t| == 10 {
      assert !InClass(DateSep, t[4]);
    }
    MatchNeedsClass(NumericWithYear, t, 1);
    MatchNeedsClass(NumericNoYear, t, 1);
  }

  lemma NamedGroups(d: string, w: string, y: string)
    requires IsDay(d) && Fits(Word, w) && Fits(Year4, y)
    ensures Match(NamedWithYear, d + " " + w + " " + y) == Some([d, " ", w, " ", y])
  {
    ConcatFive(d, " ", w, " ", y);
    MatchComplete(NamedWithYear, [d, " ", w, " ", y]);
  }

  /** In `D1-R`, with no hyphen in `R`, the only hyphen follows the day. */
  lemma DayDashHyphens(d1: string, right: string)
    requires IsDay(d1)
    requires forall i :: 0 <= i < |right| ==> right[i] != '-'
    ensures var text := d1 + "-" + right;
      forall i :: 0 <= i < |text| && text[i] == '-' ==> i == |d1|
  {
    var text := d1 + "-" + right;
    var k := |d1|;
    forall i | 0 <= i < |text| && i != k ensures text[i] != '-' {
      if i < k {
        assert text[i] == d1[i];
      } else {
        assert text[i] == right[i - k - 1];
      }
    }
  }

  /** A text whose only hyphen at `k` follows a non-space has no ` - `. */
  lemma OneHyphenNoSpacedDash(s: string, k: nat)
    requires 0 < k < |s| && s[k - 1] != ' '
    requires forall i :: 0 <= i < |s| && s[i] == '-' ==> i == k
    ensures forall p :: 0 <= p <= |s| ==> !SpacedDashAt(s, p)
  {
    forall p | 0 <= p <= |s| ensures !SpacedDashAt(s, p) {
      if p + 3 <= |s| {
        assert s[p..p + 3][1] == s[p + 1];
        assert s[p..p + 3][0] == s[p];
      }
    }
  }

  /** `D1-R`, with `R` starting and ending with a digit and holding no hyphen, splits into `D1` and `R`. */
  lemma DayDashSplit(d1: string, right: string)
    requires IsDay(d1)
    requires right != [] && IsDigit(right[0]) && IsDigit(right[|right| - 1])
    requires forall i :: 0 <= i < |right| ==> right[i] != '-'
    ensures SplitEndpoints(d1 + "-" + right) == Some((d1, right))
  {
    var text := d1 + "-" + right;
    var k := |d1|;
    DayDashHyphens(d1, right);
    assert text[k - 1] == d1[k - 1];
    OneHyphenNoSpacedDash(text, k);
    assert text[..k] == d1 && text[k + 1..] == right;
    assert d1[0] == text[..k][0] && right[0] == text[k + 1..][0];
    assert GoodSplit(text, k);
    TrimNoop(d1);
    TrimNoop(right);
    assert Trim(text[..k]) == d1 && Trim(text[k + 1..]) == right;
    FirstDashSplit(text, k);
  }

  /** Without ` - `, a text splits at its first hyphen when that hyphen has text on both sides. */
  lemma FirstDashSplit(s: string, k: nat)
    requires forall p :: 0 <= p <= |s| ==> !SpacedDashAt(s, p)
    requires GoodSplit(s, k) && forall j :: 0 <= j < k ==> s[j] != '-'
    ensures SplitEndpoints(s) == Some((Trim(s[..k]), Trim(s[k + 1..])))
  {
    FirstGoodSplitAt(s, k);
  }

  /** A message whose only hyphen follows a day is neither same-month shorthand nor an ISO pair. */
  lemma DayDashNotEarly(d1: string, right: string, currentYear: int)
    requires IsDay(d1)
    requires forall i :: 0 <= i < |d1 + "-" + right| && (d1 + "-" + right)[i] == '-' ==> i == |d1|
    ensures ParseSameMonthRange(d1 + "-" + right, currentYear).None? && IsoRange(d1 + "-" + right).None?
  {
    var text := d1 + "-" + right;
    assert text == d1 + ("-" + right);
    MatchHead(SameMonthWithYear, d1, "-" + right);
    MatchStops(SameMonthWithYear[1..], "-" + right);
    MatchHead(SameMonthNoYear, d1, "-" + right);
    MatchStops(SameMonthNoYear[1..], "-" + right);
    forall p: nat | p < |text| ensures !IsoWindowAt(text, p) {
    }
    NoIsoWindowNoIso(text);
  }

  /** A four-digit year prints back with four digits exactly when it has no leading zero. */
  lemma FourDigitYear(y: string)
    requires Fits(Year4, y)
    ensures 1000 <= DigitsValue(y) < 10000 <==> y[0] != '0'
  {
    DigitsValueUpperBound(y);
    if y[0] == '0' {
      LeadingZero(y);
      DigitsValueUpperBound(y[1..]);
    } else {
      DigitsValueLowerBound(y);
      DigitsValueLowerBound(y[..3]);
      DigitsValueLowerBound(y[..3][..2]);
      assert y[..3][..2][..1] == [y[0]];
    }
  }

  /**
   * Bare-day backfill (src/dates.js:217-231): two parsed sides are kept as
   * they are; a missing side is filled only when it is a bare day and the
   * other side is ISO-shaped, from whose year and month it borrows; with
   * both sides missing, or the missing one not a bare day, the pair fails.
   */
  lemma BackfillRules(left: string, right: string, start: Option<string>, end: Option<string>)
    requires start.Some? ==> MonthDayShaped(start.value)
    requires end.Some? ==> MonthDayShaped(end.value)
    ensures start.Some? && end.Some? ==> Backfill(left, right, start, end) == Some((start.value, end.value))
    ensures start.None? && end.None? ==> Backfill(left, right, start, end).None?
    ensures start.Some? && end.None? ==>
      Backfill(left, right, start, end)
        == (if IsDay(right) && IsoShaped(start.value) then Some((start.value, Borrow(start.value, right).value)) else None)
    ensures start.None? && end.Some? ==>
      Backfill(left, right, start, end)
        == (if IsDay(left) && IsoShaped(end.value) then Some((Borrow(end.value, left).value, end.value)) else None)
  {
    BareDayFits(left);
    BareDayFits(right);
  }

  /** When only the right part is a date, the left part can only borrow its year and month. */
  lemma EndpointsBorrowLeft(left: string, right: string, currentYear: int, e: string)
    requires var fallbackYear := FallbackYear(right, currentYear);
      && CompactRange(left, right, fallbackYear).None?
      && ParseOneDate(left, fallbackYear).None?
      && ParseOneDate(right, fallbackYear) == Some(e)
    ensures ParseEndpoints(left, right, currentYear)
      == if IsDay(left) && IsoShaped(e) then Some(CompareOrder(Borrow(e, left).value, e)) else None
  {
    BackfillRules(left, right, None, Some(e));
  }

  /** A borrowed day keeps the year and month of the date it borrows from. */
  lemma BorrowKeepsYearMonth(y: int, m: nat, d: nat, day: string)
    requires 1000 <= y < 10000 && m < 100 && d < 100 && IsDay(day)
    ensures Borrow(ToISO(y, m, d), day) == Some(ToISO(y, m, DigitsValue(day)))
  {
    ToIsoRoundTrip(y, m, d);
  }

  /** `D2 month YYYY` is no compact right part, and the bare day on the left is no date by itself. */
  lemma NamedRightNotCompact(d1: string, d2: string, w: string, y: string, fallbackYear: int)
    requires IsDay(d1) && IsDay(d2) && Fits(Word, w) && Fits(Year4, y)
    ensures CompactRange(d1, d2 + " " + w + " " + y, fallbackYear).None?
    ensures ParseOneDate(d1, fallbackYear).None?
  {
    var right := d2 + " " + w + " " + y;
    NamedChars(d2, w, y);
    MatchNeedsClass(NumericWithYear, right, 1);
    MatchNeedsClass(NumericNoYear, right, 1);
    DigitsTokenFails(d1, fallbackYear);
  }

  lemma RegroupDash(d1: string, d2: string, w: string, y: string)
    ensures d1 + "-" + (d2 + " " + w + " " + y) == d1 + "-" + d2 + " " + w + " " + y
  {
  }

  /** `D1-R`, with no hyphen in `R`, is parsed as the endpoints `D1` and `R`. */
  lemma DayDashEndpoints(d1: string, right: string, currentYear: int)
    requires IsDay(d1)
    requires right != [] && IsDigit(right[0]) && IsDigit(right[|right| - 1])
    requires forall i :: 0 <= i < |right| ==> !InClass(DateSep, right[i])
    ensures ParseNormalized(d1 + "-" + right, currentYear) == ParseEndpoints(d1, right, currentYear)
  {
    DayDashHyphens(d1, right);
    DayDashSplit(d1, right);
    DayDashNotEarly(d1, right, currentYear);
  }

  /**
   * The endpoints `D1` and `D2 month YYYY`: the right side is a date, and
   * the bare left day borrows its year and month, which needs the year to
   * print with four digits again (src/dates.js:213-233).
   */
  lemma NamedEndpoints(d1: string, d2: string, w: string, y: string, currentYear: int)
    requires IsDay(d1) && IsDay(d2) && Fits(Word, w) && Fits(Year4, y) && ResolveMonth(w).Some?
    ensures var year, month := DigitsValue(y), ResolveMonth(w).value;
      ParseEndpoints(d1, d2 + " " + w + " " + y, currentYear)
        == if y[0] != '0' then Some(CompareOrder(ToISO(year, month, DigitsValue(d1)), ToISO(year, month, DigitsValue(d2))))
           else None
  {
    var right := d2 + " " + w + " " + y;
    var year, month := DigitsValue(y), ResolveMonth(w).value;
    var fallbackYear := FallbackYear(right, currentYear);
    NamedRightNotCompact(d1, d2, w, y, fallbackYear);
    NamedDateReads(d2, w, y, fallbackYear);
    DayDigits(d2);
    var e := ToISO(year, month, DigitsValue(d2));
    EndpointsBorrowLeft(d1, right, currentYear, e);
    FourDigitYear(y);
    ToIsoRoundTrip(year, month, DigitsValue(d2));
    if y[0] != '0' {
      BorrowKeepsYearMonth(year, month, DigitsValue(d2), d1);
    }
  }

  /**
   * A message that normalises to `D1-D2 month YYYY`: both days in that month
   * and year, the smaller first, when the year has no leading zero; with a
   * leading zero the borrowed date no longer looks like `YYYY-MM-DD` and the
   * result is `null` (src/dates.js:184-192, 213-233).
   */
  lemma NamedMonthRange(text: string, d1: string, d2: string, w: string, y: string, currentYear: int)
    requires IsDay(d1) && IsDay(d2) && Fits(Word, w) && Fits(Year4, y) && ResolveMonth(w).Some?
    requires Normalize(text) == d1 + "-" + d2 + " " + w + " " + y
    ensures var year, month := DigitsValue(y), ResolveMonth(w).value;
      ParseDateRangeFlexible(text, currentYear)
        == if y[0] != '0' then Some(CompareOrder(ToISO(year, month, DigitsValue(d1)), ToISO(year, month, DigitsValue(d2))))
           else None
  {
    var right := d2 + " " + w + " " + y;
    var norm := d1 + "-" + right;
    RegroupDash(d1, d2, w, y);
    NamedChars(d2, w, y);
    DayDashEndpoints(d1, right, currentYear);
    NamedEndpoints(d1, d2, w, y, currentYear);
    FlexibleOfNormalized(text, norm, currentYear);
  }

  // Single dates, read day first.

  /** A token of digits and separators is its own trimmed, lower-cased form. */
  lemma NumericToken(t: string)
    requires t != [] && IsDigit(t[0]) && IsDigit(t[|t| - 1])
    requires forall i :: 0 <= i < |t| ==> NumericChar(t[i])
    ensures Lower(Trim(t)) == t
    ensures forall i :: 0 <= i < |t| ==> !IsSpace(t[i])
  {
    NumericSettled(t);
    TrimNoop(t);
  }

  /**
   * `D.M.YYYY` (with any of `./-`) is read day first, and month and day are
   * not checked against the calendar (src/dates.js:91-92).
   */
  lemma NumericDateReads(d: string, s1: char, m: string, s2: char, y: string, fallbackYear: int)
    requires IsDay(d) && IsDay(m) && Fits(Year4, y) && InClass(DateSep, s1) && InClass(DateSep, s2)
    ensures ParseOneDate(d + [s1] + m + [s2] + y, fallbackYear)
      == Some(ToISO(DigitsValue(y), DigitsValue(m), DigitsValue(d)))
  {
    var t := d + [s1] + m + [s2] + y;
    LongRightNumeric(d, s1, m, s2, y);
    NumericToken(t);
    NumericShapes(d, s1, m, s2, y);
  }

  /** `D.M.YYYY` is no ISO token and fits the numeric shape with a year. */
  lemma NumericShapes(d: string, s1: char, m: string, s2: char, y: string)
    requires IsDay(d) && IsDay(m) && Fits(Year4, y) && InClass(DateSep, s1) && InClass(DateSep, s2)
    ensures var t := d + [s1] + m + [s2] + y;
      IsoTokenDate(t).None? && NumericDate(t) == Some(ToISO(DigitsValue(y), DigitsValue(m), DigitsValue(d)))
  {
    var t := d + [s1] + m + [s2] + y;
    var g := [d, [s1], m, [s2], y];
    SepAfterDay(d, [s1] + m + [s2] + y);
    RegroupHead(d, [s1], m, [s2], y);
    LongRightGroups(d, s1, m, s2, y);
    NumericDateOfGroups(t, g);
    assert g[4] == y && g[2] == m && g[0] == d;
  }

  /** A separator right after a day is too early for an ISO date, whose first five characters are digits. */
  lemma SepAfterDay(d: string, rest: string)
    requires IsDay(d) && rest != [] && InClass(DateSep, rest[0])
    ensures IsoTokenDate(d + rest).None?
  {
    var t := d + rest;
    assert t[|d|] == rest[0];
  }

  lemma NumericDateOfGroups(t: string, g: seq<string>)
    requires Match(NumericWithYear, t) == Some(g)
    ensures |g| == 5 && NumericDate(t) == Some(ToISO(DigitsValue(g[4]), DigitsValue(g[2]), DigitsValue(g[0])))
  {
  }


  /**
   * `D.M` is read day first in the fallback year, and only when that year
   * is truthy, that is not zero (src/dates.js:94-95).
   */
  lemma NumericShortReads(d: string, sep: char, m: string, fallbackYear: int)
    requires IsDay(d) && IsDay(m) && InClass(DateSep, sep)
    ensures ParseOneDate(d + [sep] + m, fallbackYear)
      == if fallbackYear != 0 then Some(ToISO(fallbackYear, DigitsValue(m), DigitsValue(d))) else None
  {
    var t := d + [sep] + m;
    ShortRightNumeric(d, sep, m);
    NumericToken(t);
    NumericShortShapes(d, sep, m, fallbackYear);
  }

  /** Of the single-date shapes, only `D.M` can fit `D.M`. */
  lemma NumericShortShapes(d: string, sep: char, m: string, fallbackYear: int)
    requires IsDay(d) && IsDay(m) && InClass(DateSep, sep)
    requires forall i :: 0 <= i < |d + [sep] + m| ==> !IsSpace((d + [sep] + m)[i])
    ensures var t := d + [sep] + m;
      && IsoTokenDate(t).None? && NumericDate(t).None? && NamedDate(t).None? && NamedShortDate(t, fallbackYear).None?
      && NumericShortDate(t, fallbackYear)
        == if fallbackYear != 0 then Some(ToISO(fallbackYear, DigitsValue(m), DigitsValue(d))) else None
  {
    var t := d + [sep] + m;
    var g := [d, [sep], m];
    Assoc(d, [sep], m);
    SepAfterDay(d, [sep] + m);
    ShortRightNotLong(d, sep, m);
    NoSpaceNotNamed(t, fallbackYear);
    ShortRightGroups(d, sep, m);
    NumericShortDateOfGroups(t, fallbackYear, g);
    assert g[2] == m && g[0] == d;
  }

  /** The named-month shapes need a space after the day. */
  lemma NoSpaceNotNamed(t: string, fallbackYear: int)
    requires forall i :: 0 <= i < |t| ==> !IsSpace(t[i])
    ensures NamedDate(t).None? && NamedShortDate(t, fallbackYear).None?
  {
    MatchNeedsClass(NamedWithYear, t, 1);
    MatchNeedsClass(NamedNoYear, t, 1);
  }

  lemma NumericShortDateOfGroups(t: string, fallbackYear: int, g: seq<string>)
    requires Match(NumericNoYear, t) == Some(g)
    ensures |g| == 3
    ensures NumericShortDate(t, fallbackYear)
      == if fallbackYear != 0 then Some(ToISO(fallbackYear, DigitsValue(g[2]), DigitsValue(g[0]))) else None
  {
  }

  /** Trimming and lower-casing `D month` only lower-cases the month word. */
  lemma NamedShortToken(d: string, w: string)
    requires IsDay(d) && Fits(Word, w)
    ensures Lower(Trim(d + " " + w)) == d + " " + Lower(w)
    ensures Fits(Word, Lower(w))
  {
    NamedShortTrimmed(d, w);
    NamedShortLower(d, w);
  }

  lemma NamedShortTrimmed(d: string, w: string)
    requires IsDay(d) && Fits(Word, w)
    ensures Trim(d + " " + w) == d + " " + w
  {
    var t := d + " " + w;
    assert t[0] == d[0] && t[|t| - 1] == w[|w| - 1];
    TrimNoop(t);
  }

  lemma NamedShortLower(d: string, w: string)
    requires IsDay(d) && Fits(Word, w)
    ensures Lower(d + " " + w) == d + " " + Lower(w)
  {
    LowerKeepsDigitsAndSpaces(d + " ");
    LowerConcat(d + " ", w);
  }

  /** Of the single-date shapes, only `D month` can fit `D month`. */
  lemma NamedShortShapes(d: string, w: string, fallbackYear: int)
    requires IsDay(d) && Fits(Word, w)
    ensures var t := d + " " + w;
      && IsoTokenDate(t).None? && NumericDate(t).None? && NumericShortDate(t, fallbackYear).None?
      && NamedDate(t).None?
      && NamedShortDate(t, fallbackYear)
        == if fallbackYear != 0 && ResolveMonth(w).Some? then Some(ToISO(fallbackYear, ResolveMonth(w).value, DigitsValue(d))) else None
  {
    NamedShortChars(d, w);
    NoSepNotNumeric(d + " " + w, fallbackYear);
    NamedShortNotLong(d, w);
    NamedShortGroups(d, w);
  }

  lemma NamedShortChars(d: string, w: string)
    requires IsDay(d) && Fits(Word, w)
    ensures forall i :: 0 <= i < |d + " " + w| ==> !InClass(DateSep, (d + " " + w)[i])
  {
    var t := d + " " + w;
    forall i | 0 <= i < |t| ensures !InClass(DateSep, t[i]) {
      if i < |d| {
        assert t[i] == d[i];
      } else if i > |d| {
        assert t[i] == w[i - |d| - 1];
      }
    }
  }

  lemma NamedShortGroups(d: string, w: string)
    requires IsDay(d) && Fits(Word, w)
    ensures Match(NamedNoYear, d + " " + w) == Some([d, " ", w])
  {
    ConcatThree(d, " ", w);
    MatchComplete(NamedNoYear, [d, " ", w]);
  }

  /** `D month` never fits `D month YYYY`. */
  lemma NamedShortNotLong(d: string, w: string)
    requires IsDay(d) && Fits(Word, w)
    ensures Match(NamedWithYear, d + " " + w).None?
  {
    assert d + " " + w == d + (" " + (w + []));
    MatchStops([Spaces, Year4], []);
    MatchHead([Word, Spaces, Year4], w, []);
    MatchHead([Spaces, Word, Spaces, Year4], " ", w + []);
    assert NamedWithYear[1..] == [Spaces, Word, Spaces, Year4];
    MatchHead(NamedWithYear, d, " " + (w + []));
  }

  /**
   * `D month` is read day first in the fallback year, when that year is
   * truthy and the month word resolves (src/dates.js:104-108).
   */
  lemma NamedShortReads(d: string, w: string, fallbackYear: int)
    requires IsDay(d) && Fits(Word, w)
    ensures ParseOneDate(d + " " + w, fallbackYear)
      == if fallbackYear != 0 && ResolveMonth(w).Some? then Some(ToISO(fallbackYear, ResolveMonth(w).value, DigitsValue(d))) else None
  {
    NamedShortToken(d, w);
    ResolveByStem(w);
    ResolveByStem(Lower(w));
    LowerIdempotent(w);
    NamedShortShapes(d, Lower(w), fallbackYear);
  }

  /**
   * An ISO token is read and printed again: the same string unless its year
   * has a leading zero (src/dates.js:88-89).
   */
  lemma IsoTokenReads(t: string, fallbackYear: int)
    requires IsoShaped(t)
    ensures var p := ParseIsoParts(t).value;
      ParseOneDate(t, fallbackYear) == Some(ToISO(p.year, p.month, p.day))
    ensures ParseOneDate(t, fallbackYear) == Some(t) <==> t[0] != '0'
  {
    IsoSettled(t);
    ParseThenPrint(t);
  }

  lemma IsoSettled(t: string)
    requires IsoShaped(t)
    ensures Lower(Trim(t)) == t
  {
    NumericSettled(t);
    TrimNoop(t);
  }

  /** A message with an ISO pair in it has a hyphen with text on both sides, so it splits. */
  lemma IsoPairSplits(s: string)
    requires FindIsoPair(s).Some?
    ensures SplitEndpoints(s).Some?
  {
    var p := IsoPairPosition(s).value;
    var iso := s[p..p + 10];
    assert s[p + 4] == iso[4] && s[p] == iso[0] && s[p + 5] == iso[5];
    assert s[..p + 4][p] == s[p];
    assert s[p + 5..][0] == s[p + 5];
    assert GoodSplit(s, p + 4);
  }

  /**
   * When the message is no same-month shorthand and does not split, it is
   * one single date read with `currentYear` as the fallback, and the range
   * starts and ends on that date (src/dates.js:180-190).
   */
  lemma SingleDatePath(text: string, currentYear: int)
    requires Normalize(text) != []
    requires ParseSameMonthRange(Normalize(text), currentYear).None?
    requires SplitEndpoints(Normalize(text)).None?
    ensures ParseDateRangeFlexible(text, currentYear)
      == match ParseOneDate(Normalize(text), currentYear) case Some(d) => Some(Range(d, d)) case None => None
  {
    var norm := Normalize(text);
    if FindIsoPair(norm).Some? {
      IsoPairSplits(norm);
      assert false;
    }
    IsoCompactUnreachable(norm);
    FlexibleOfNormalized(text, norm, currentYear);
  }

  /** `D.M.YYYY` or `D/M/YYYY` has no hyphen. */
  lemma SlashedNoHyphen(d: string, s1: char, m: string, s2: char, y: string)
    requires IsDay(d) && IsDay(m) && Fits(Year4, y)
    requires s1 == '.' || s1 == '/'
    requires s2 == '.' || s2 == '/'
    ensures var t := d + [s1] + m + [s2] + y;
      forall i :: 0 <= i < |t| ==> t[i] != '-'
  {
    var t := d + [s1] + m + [s2] + y;
    forall i | 0 <= i < |t| ensures t[i] != '-' {
      if i != |d| && i != |d| + 1 + |m| {
        NumericDigitsBetween(d, s1, m, s2, y, i);
      }
    }
  }

  /**
   * A message `D.M.YYYY` or `D/M/YYYY` is a single date, start and end
   * alike, whatever the month and day numbers (src/dates.js:91-92, 184-190).
   */
  lemma SingleNumericDate(d: string, s1: char, m: string, s2: char, y: string, currentYear: int)
    requires IsDay(d) && IsDay(m) && Fits(Year4, y)
    requires s1 == '.' || s1 == '/'
    requires s2 == '.' || s2 == '/'
    ensures var day := ToISO(DigitsValue(y), DigitsValue(m), DigitsValue(d));
      ParseDateRangeFlexible(d + [s1] + m + [s2] + y, currentYear) == Some(Range(day, day))
  {
    var t := d + [s1] + m + [s2] + y;
    LongRightNumeric(d, s1, m, s2, y);
    NumericSettled(t);
    NoSpaceNotSameMonth(t, currentYear);
    SlashedNoHyphen(d, s1, m, s2, y);
    NoHyphenNoSplit(t);
    SingleDatePath(t, currentYear);
    NumericDateReads(d, s1, m, s2, y, currentYear);
  }

  /**
   * A four-digit year with a leading zero is read as a number and printed
   * without the zero, so the result is not `YYYY-MM-DD` (src/dates.js:74-76, 91-93).
   */
  lemma ShortYearUnpadded(currentYear: int)
    ensures ParseDateRangeFlexible("12.10.0999", currentYear) == Some(Range("999-10-12", "999-10-12"))
  {
    ShortYearParts();
    SingleNumericDate("12", '.', "10", '.', "0999", currentYear);
    ShortYearPrinted();
  }

  /** The groups of `12.10.0999` and their values. */
  lemma ShortYearParts()
    ensures "12" + ['.'] + "10" + ['.'] + "0999" == "12.10.0999"
    ensures IsDay("12") && IsDay("10") && Fits(Year4, "0999")
    ensures DigitsValue("0999") == 999 && DigitsValue("10") == 10 && DigitsValue("12") == 12
  {
    assert InClass(Digit, '0') && InClass(Digit, '9');
    assert "0999"[..3] == "099" && "099"[..2] == "09" && "09"[..1] == "0" && "0"[..0] == [];
    assert "12"[..1] == "1" && "10"[..1] == "1" && "1"[..0] == [];
  }

  /** `toISO(999, 10, 12)` prints the year with three digits. */
  lemma ShortYearPrinted()
    ensures ToISO(999, 10, 12) == "999-10-12"
  {
    assert DigitsValue("999") == 999 by {
      assert "999"[..2] == "99" && "99"[..1] == "9" && "9"[..0] == [];
    }
    NatToStringOfDigitsValue("999");
    assert DigitsValue("12") == 12 && DigitsValue("10") == 10 by {
      assert "12"[..1] == "1" && "10"[..1] == "1" && "1"[..0] == [];
    }
    PadRoundTrip("12");
    PadRoundTrip("10");
  }

  /** In `D.M.YYYY` every character but the two separators is a digit. */
  lemma NumericDigitsBetween(d: string, s1: char, m: string, s2: char, y: string, i: nat)
    requires IsDay(d) && IsDay(m) && Fits(Year4, y)
    requires i < |d + [s1] + m + [s2] + y| && i != |d| && i != |d| + 1 + |m|
    ensures IsDigit((d + [s1] + m + [s2] + y)[i])
  {
    var t := d + [s1] + m + [s2] + y;
    if i < |d| {
      assert t[i] == d[i];
    } else if i < |d| + 1 + |m| {
      assert t[i] == m[i - |d| - 1];
    } else {
      assert t[i] == y[i - |d| - |m| - 2];
    }
  }
}
