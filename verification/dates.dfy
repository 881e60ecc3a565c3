/**
 * The free-text date-range parser `parseDateRangeFlexible` (src/dates.js):
 * normalise the message, then try, in order, the same-month shorthand, two
 * ISO dates, a split into two endpoints (with the compact `D-D.M[.Y]`
 * shortcut, single-date parsing and bare-day backfill), or one single date.
 * The clock is the parameter `currentYear`.
 */
module Dates {
  import opened Wrappers
  import opened Text
  import opened Pattern
  import opened Search
  import opened Months
  import opened IsoDate
  import opened Normalization

  /** The parser's result `{start, end}`. */
  datatype Range = Range(start: string, end: string)

  /** `(\d{1,2})` */
  const Day := Atom(Digit, 1, AtMost(2))
  /** `(\d{4})` */
  const Year4 := Atom(Digit, 4, AtMost(4))
  /** `\s+` */
  const Spaces := Atom(Space, 1, Unbounded)
  /** `([a-zа-яё]+)` under the `i` flag */
  const Word := Atom(Letter, 1, Unbounded)
  /** `[./-]` */
  const Sep := Atom(DateSep, 1, AtMost(1))

  /** `^(\d{1,2})\s+(\d{1,2})\s+([a-zа-яё]+)\s+(\d{4})$`: the same-month shorthand with its year */
  const SameMonthWithYear := [Day, Spaces, Day, Spaces, Word, Spaces, Year4]
  /** `^(\d{1,2})\s+(\d{1,2})\s+([a-zа-яё]+)$` */
  const SameMonthNoYear := [Day, Spaces, Day, Spaces, Word]
  /** `^(\d{1,2})[./-](\d{1,2})[./-](\d{4})$` */
  const NumericWithYear := [Day, Sep, Day, Sep, Year4]
  /** `^(\d{1,2})[./-](\d{1,2})$` */
  const NumericNoYear := [Day, Sep, Day]
  /** `^(\d{1,2})\s+([a-zа-яё]+)\s+(\d{4})$` */
  const NamedWithYear := [Day, Spaces, Word, Spaces, Year4]
  /** `^(\d{1,2})\s+([a-zа-яё]+)$` */
  const NamedNoYear := [Day, Spaces, Word]
  /** `^(\d{1,2})$` */
  const BareDay := [Day]

  /** A 1-2 digit day number as the source's `\d{1,2}` reads it. */
  predicate IsDay(s: string) {
    Fits(Day, s)
  }

  /** `/^\d{1,2}$/` matches exactly the day numbers. */
  lemma BareDayFits(s: string)
    ensures Match(BareDay, s).Some? <==> IsDay(s)
    ensures Match(BareDay, s).Some? ==> Match(BareDay, s).value == [s]
  {
    if Match(BareDay, s).Some? {
      ConcatOne(Match(BareDay, s).value[0]);
    }
    if IsDay(s) {
      ConcatOne(s);
      MatchComplete(BareDay, [s]);
    }
  }

  /** `compareOrder`: the two strings, the smaller first. */
  function CompareOrder(a: string, b: string): (r: Range)
    ensures LexLe(r.start, r.end)
    ensures multiset{r.start, r.end} == multiset{a, b}
  {
    LexLeTotal(a, b);
    if LexLe(a, b) then Range(a, b) else Range(b, a)
  }

  /** The order of the arguments does not matter to `compareOrder`. */
  lemma CompareOrderSymmetric(a: string, b: string)
    ensures CompareOrder(a, b) == CompareOrder(b, a)
  {
    if LexLe(a, b) && LexLe(b, a) {
      LexLeAntisymmetric(a, b);
    }
    LexLeTotal(a, b);
  }

  function Min(a: int, b: int): int { if a <= b then a else b }
  function Max(a: int, b: int): int { if a <= b then b else a }

  /** The captured groups of the same-month shorthand. */
  datatype SameMonthShape = SameMonthShape(d1: string, d2: string, word: string, year: Option<string>)

  /**
   * `/^(\d{1,2})\s+(\d{1,2})\s+([a-zа-яё]+)(?:\s+(20\d{2}))?$/i`: the year,
   * when present, must start with `20`.
   */
  function MatchSameMonth(norm: string): Option<SameMonthShape> {
    var withYear := Match(SameMonthWithYear, norm);
    if withYear.Some? && withYear.value[6][..2] == "20" then
      Some(SameMonthShape(withYear.value[0], withYear.value[2], withYear.value[4], Some(withYear.value[6])))
    else
      match Match(SameMonthNoYear, norm)
      case Some(g) => Some(SameMonthShape(g[0], g[2], g[4], None))
      case None => None
  }

  /**
   * `parseSameMonthRange`: "d1 d2 month [20yy]" is the range from the smaller
   * to the larger day of that month, in the given year or else `currentYear`.
   * A month word that does not resolve gives `None`.
   */
  function ParseSameMonthRange(norm: string, currentYear: int): (r: Option<Range>)
    ensures r.Some? ==> LexLe(r.value.start, r.value.end)
    ensures r.Some? ==> MonthDayShaped(r.value.start) && MonthDayShaped(r.value.end)
    ensures r.Some? <==> MatchSameMonth(norm).Some? && ResolveMonth(MatchSameMonth(norm).value.word).Some?
  {
    match MatchSameMonth(norm)
    case None => None
    case Some(shape) =>
      match ResolveMonth(shape.word)
      case None => None
      case Some(month) =>
        var year := if shape.year.Some? then DigitsValue(shape.year.value) else currentYear;
        DigitsValueUpperBound(shape.d1);
        DigitsValueUpperBound(shape.d2);
        Some(DaysOfMonth(year, month, DigitsValue(shape.d1), DigitsValue(shape.d2)))
  }

  /** The smaller day of the month to the larger one. */
  function DaysOfMonth(year: int, month: nat, d1: nat, d2: nat): (r: Range)
    requires 1 <= month <= 12 && d1 < 100 && d2 < 100
    ensures LexLe(r.start, r.end)
    ensures MonthDayShaped(r.start) && MonthDayShaped(r.end)
  {
    SameMonthOrder(year, month, Min(d1, d2), Max(d1, d2));
    Range(ToISO(year, month, Min(d1, d2)), ToISO(year, month, Max(d1, d2)))
  }

  /** `\d{4}-\d{2}-\d{2}` at position `p`, then `\s*-\s*`, then `\d{4}-\d{2}-\d{2}`. */
  function IsoPairAt(s: string, p: nat): Option<(string, string)> {
    if p + 10 <= |s| && IsoShaped(s[p..p + 10]) then
      var k := p + 10 + LeadingSpaces(s[p + 10..]);
      if k < |s| && s[k] == '-' then
        var q := k + 1 + LeadingSpaces(s[k + 1..]);
        if q + 10 <= |s| && IsoShaped(s[q..q + 10]) then Some((s[p..p + 10], s[q..q + 10]))
        else None
      else None
    else None
  }

  /** Where the leftmost ISO pair starts. */
  function IsoPairPosition(s: string): (r: Option<nat>)
    ensures r.Some? ==> IsoPairAt(s, r.value).Some? && forall q :: 0 <= q < r.value ==> IsoPairAt(s, q).None?
    ensures r.None? <==> forall p :: 0 <= p <= |s| ==> IsoPairAt(s, p).None?
  {
    var at := (p: nat) => IsoPairAt(s, p).Some?;
    match FirstWhere(|s|, at, 0)
    case Some(p) =>
      assert at(p);
      forall q: nat | q < p ensures IsoPairAt(s, q).None? {
        assert !at(q);
      }
      Some(p)
    case None =>
      forall p: nat | p <= |s| ensures IsoPairAt(s, p).None? {
        assert !at(p);
      }
      None
  }

  /** `norm.match(/(\d{4}-\d{2}-\d{2})\s*-\s*(\d{4}-\d{2}-\d{2})/)`: the leftmost such pair. */
  function FindIsoPair(s: string): (r: Option<(string, string)>)
    ensures r.Some? ==> IsoShaped(r.value.0) && IsoShaped(r.value.1)
    ensures r.None? <==> forall p :: 0 <= p <= |s| ==> IsoPairAt(s, p).None?
  {
    match IsoPairPosition(s)
    case Some(p) => IsoPairAt(s, p)
    case None => None
  }

  /** `\d{4}-\d{2}-\d{2}-\d{4}-\d{2}-\d{2}` at position `p`. */
  function IsoCompactAt(s: string, p: nat): Option<(string, string)> {
    if p + 21 <= |s| && IsoShaped(s[p..p + 10]) && s[p + 10] == '-' && IsoShaped(s[p + 11..p + 21]) then
      Some((s[p..p + 10], s[p + 11..p + 21]))
    else None
  }

  /** `norm.match(/(\d{4}-\d{2}-\d{2})-(\d{4}-\d{2}-\d{2})/)` */
  function FindIsoCompact(s: string): (r: Option<(string, string)>)
    ensures r.Some? ==> IsoShaped(r.value.0) && IsoShaped(r.value.1)
    ensures r.None? <==> forall p :: 0 <= p <= |s| ==> IsoCompactAt(s, p).None?
  {
    var at := (p: nat) => IsoCompactAt(s, p).Some?;
    match FirstWhere(|s|, at, 0)
    case Some(p) => assert at(p); IsoCompactAt(s, p)
    case None =>
      forall p: nat | p <= |s| ensures IsoCompactAt(s, p).None? {
        assert !at(p);
      }
      None
  }

  /** Every hyphen-only pair is also a pair with zero spaces around the hyphen. */
  lemma IsoCompactIsIsoPair(s: string, p: nat)
    requires IsoCompactAt(s, p).Some?
    ensures IsoPairAt(s, p) == IsoCompactAt(s, p)
  {
    assert s[p + 10..][0] == '-';
    assert s[p + 11..][0] == s[p + 11..p + 21][0];
  }

  /** The `isoCompact` branch can never fire: whenever it would match, the pair search already did. */
  lemma IsoCompactUnreachable(s: string)
    requires FindIsoPair(s).None?
    ensures FindIsoCompact(s).None?
  {
    forall p | 0 <= p <= |s| ensures IsoCompactAt(s, p).None? {
      if IsoCompactAt(s, p).Some? {
        IsoCompactIsIsoPair(s, p);
      }
    }
  }

  /** `norm.indexOf(' - ')` */
  predicate SpacedDashAt(s: string, p: nat) {
    p + 3 <= |s| && s[p..p + 3] == " - "
  }

  function SpacedDash(s: string): (r: Option<nat>)
    ensures r.Some? ==> SpacedDashAt(s, r.value) && forall p :: 0 <= p < r.value ==> !SpacedDashAt(s, p)
    ensures r.None? <==> forall p :: 0 <= p <= |s| ==> !SpacedDashAt(s, p)
  {
    var at := (p: nat) => SpacedDashAt(s, p);
    match FirstWhere(|s|, at, 0)
    case Some(k) =>
      assert at(k);
      forall p: nat | p < k ensures !SpacedDashAt(s, p) {
        assert !at(p);
      }
      Some(k)
    case None =>
      forall p: nat | p <= |s| ensures !SpacedDashAt(s, p) {
        assert !at(p);
      }
      None
  }

  /** Splitting at the hyphen at `i` leaves text on both sides. */
  predicate GoodSplit(s: string, i: nat) {
    i < |s| && s[i] == '-' && !Blank(s[..i]) && !Blank(s[i + 1..])
  }

  /** The position of the first hyphen that leaves non-blank text on both sides. */
  function FirstGoodSplit(s: string): (r: Option<nat>)
    ensures r.Some? ==> GoodSplit(s, r.value) && forall j :: 0 <= j < r.value ==> !GoodSplit(s, j)
    ensures r.None? <==> forall i :: 0 <= i < |s| ==> !GoodSplit(s, i)
  {
    var at := (i: nat) => GoodSplit(s, i);
    var r := FirstWhere(|s|, at, 0);
    if r.Some? then
      assert at(r.value);
      forall j: nat | j < r.value ensures !GoodSplit(s, j) {
        assert !at(j);
      }
      r
    else
      forall i: nat | i < |s| ensures !GoodSplit(s, i) {
        assert !at(i);
      }
      None
  }

  /**
   * `splitByFirstDash`: split at the first hyphen that leaves non-blank text
   * on both sides, and trim both parts; `None` when no hyphen does.
   */
  function SplitByFirstDash(s: string): (r: Option<(string, string)>)
    ensures r.None? <==> forall i :: 0 <= i < |s| ==> !GoodSplit(s, i)
    ensures r.Some? ==> FirstGoodSplit(s).Some?
    ensures r.Some? ==> r.value == (Trim(s[..FirstGoodSplit(s).value]), Trim(s[FirstGoodSplit(s).value + 1..]))
  {
    var f := FirstGoodSplit(s);
    if f.None? then None
    else
      assert GoodSplit(s, f.value);
      Some((Trim(s[..f.value]), Trim(s[f.value + 1..])))
  }

  /** The two endpoint texts: around the first `" - "` if there is one, else `splitByFirstDash`. */
  function SplitEndpoints(norm: string): Option<(string, string)> {
    match SpacedDash(norm)
    case Some(k) => Some((Trim(norm[..k]), Trim(norm[k + 3..])))
    case None => SplitByFirstDash(norm)
  }

  /** `20\d{2}` at position `p`. */
  predicate YearAt(s: string, p: nat) {
    p + 4 <= |s| && s[p] == '2' && s[p + 1] == '0' && IsDigit(s[p + 2]) && IsDigit(s[p + 3])
  }

  /** Where the leftmost `20dd` starts. */
  function YearPosition(s: string): (r: Option<nat>)
    ensures r.Some? ==> YearAt(s, r.value) && forall q :: 0 <= q < r.value ==> !YearAt(s, q)
    ensures r.None? <==> forall p :: 0 <= p <= |s| ==> !YearAt(s, p)
  {
    var at := (p: nat) => YearAt(s, p);
    match FirstWhere(|s|, at, 0)
    case Some(p) =>
      assert at(p);
      forall q: nat | q < p ensures !YearAt(s, q) {
        assert !at(q);
      }
      Some(p)
    case None =>
      forall p: nat | p <= |s| ensures !YearAt(s, p) {
        assert !at(p);
      }
      None
  }

  /** `right.match(/(20\d{2})/)`: the leftmost `20dd` anywhere in `s`, as a number. */
  function YearIn(s: string): (r: Option<nat>)
    ensures r.Some? ==> 2000 <= r.value <= 2099
    ensures r.None? <==> forall p :: 0 <= p <= |s| ==> !YearAt(s, p)
  {
    match YearPosition(s)
    case Some(p) =>
      Some(2000 + 10 * DigitValue(s[p + 2]) + DigitValue(s[p + 3]))
    case None => None
  }

  /** `^(\d{1,2})[./-](\d{1,2})[./-](\d{4})$`, read day first: `toISO(+m[3], +m[2], +m[1])`. */
  function NumericDate(t: string): (r: Option<string>)
    ensures r.Some? ==> MonthDayShaped(r.value)
  {
    match Match(NumericWithYear, t)
    case Some(g) =>
      DigitsValueUpperBound(g[0]);
      DigitsValueUpperBound(g[2]);
      Some(ToISO(DigitsValue(g[4]), DigitsValue(g[2]), DigitsValue(g[0])))
    case None => None
  }

  /** `^(\d{1,2})[./-](\d{1,2})$` with a truthy fallback year. */
  function NumericShortDate(t: string, fallbackYear: int): (r: Option<string>)
    ensures r.Some? ==> MonthDayShaped(r.value) && fallbackYear != 0
  {
    match Match(NumericNoYear, t)
    case Some(g) =>
      if fallbackYear == 0 then None
      else
        DigitsValueUpperBound(g[0]);
        DigitsValueUpperBound(g[2]);
        Some(ToISO(fallbackYear, DigitsValue(g[2]), DigitsValue(g[0])))
    case None => None
  }

  /** `^(\d{1,2})\s+([a-zа-яё]+)\s+(\d{4})$` with a month word that resolves. */
  function NamedDate(t: string): (r: Option<string>)
    ensures r.Some? ==> MonthDayShaped(r.value)
  {
    match Match(NamedWithYear, t)
    case Some(g) =>
      (match ResolveMonth(g[2])
       case Some(month) =>
         DigitsValueUpperBound(g[0]);
         Some(ToISO(DigitsValue(g[4]), month, DigitsValue(g[0])))
       case None => None)
    case None => None
  }

  /** `^(\d{1,2})\s+([a-zа-яё]+)$` with a truthy fallback year and a month word that resolves. */
  function NamedShortDate(t: string, fallbackYear: int): (r: Option<string>)
    ensures r.Some? ==> MonthDayShaped(r.value) && fallbackYear != 0
  {
    match Match(NamedNoYear, t)
    case Some(g) =>
      if fallbackYear == 0 then None
      else
        (match ResolveMonth(g[2])
         case Some(month) =>
           DigitsValueUpperBound(g[0]);
           Some(ToISO(fallbackYear, month, DigitsValue(g[0])))
         case None => None)
    case None => None
  }

  /** `^(\d{4})-(\d{2})-(\d{2})$`, printed again through `toISO(+m[1], +m[2], +m[3])`. */
  function IsoTokenDate(t: string): (r: Option<string>)
    ensures r.Some? ==> MonthDayShaped(r.value)
  {
    match ParseIsoParts(t)
    case Some(parts) => Some(ToISO(parts.year, parts.month, parts.day))
    case None => None
  }

  /**
   * `parseOneDate`: the trimmed, lower-cased token in the first of five
   * shapes that fits, read day first; the year-less shapes need a non-zero
   * fallback year (`&& fallbackYear` in the source).
   */
  function ParseOneDate(token: string, fallbackYear: int): (r: Option<string>)
    ensures r.Some? ==> MonthDayShaped(r.value)
  {
    var t := Lower(Trim(token));
    if t == [] then None
    else if IsoTokenDate(t).Some? then IsoTokenDate(t)
    else if NumericDate(t).Some? then NumericDate(t)
    else if NumericShortDate(t, fallbackYear).Some? then NumericShortDate(t, fallbackYear)
    else if NamedDate(t).Some? then NamedDate(t)
    else NamedShortDate(t, fallbackYear)
  }

  /**
   * The compact shortcut: the right part is `D[./-]M[[./-]YYYY]` and the left
   * part a bare day, so both endpoints share the right part's month and year
   * (its own year, else `fallbackYear`).
   */
  function CompactRange(left: string, right: string, fallbackYear: int): (r: Option<Range>)
    ensures r.Some? ==> LexLe(r.value.start, r.value.end)
    ensures r.Some? ==> MonthDayShaped(r.value.start) && MonthDayShaped(r.value.end)
  {
    match Match(NumericWithYear, right)
    case Some(g) => CompactLeft(left, DigitsValue(g[4]), g[2], g[0])
    case None =>
      match Match(NumericNoYear, right)
      case Some(g) => CompactLeft(left, fallbackYear, g[2], g[0])
      case None => None
  }

  /** The left part of a compact range: a bare day takes the right part's month and year. */
  function CompactLeft(left: string, year: int, month: string, d2: string): (r: Option<Range>)
    requires IsDay(month) && IsDay(d2)
    ensures r.Some? ==> LexLe(r.value.start, r.value.end)
    ensures r.Some? ==> MonthDayShaped(r.value.start) && MonthDayShaped(r.value.end)
  {
    match Match(BareDay, left)
    case Some(g) => Some(SharedMonth(year, month, g[0], d2))
    case None => None
  }

  /** Two days of the same month and year, the earlier first. */
  function SharedMonth(year: int, month: string, d1: string, d2: string): (r: Range)
    requires IsDay(month) && IsDay(d1) && IsDay(d2)
    ensures LexLe(r.start, r.end)
    ensures MonthDayShaped(r.start) && MonthDayShaped(r.end)
  {
    DigitsValueUpperBound(month);
    DigitsValueUpperBound(d1);
    DigitsValueUpperBound(d2);
    CompareOrder(ToISO(year, DigitsValue(month), DigitsValue(d1)), ToISO(year, DigitsValue(month), DigitsValue(d2)))
  }

  /** The date `iso` with its day replaced by the bare day `day`, if `iso` is ISO-shaped. */
  function Borrow(iso: string, day: string): (r: Option<string>)
    requires IsDay(day)
    ensures r.Some? <==> IsoShaped(iso)
    ensures r.Some? ==> MonthDayShaped(r.value)
  {
    match ParseIsoParts(iso)
    case Some(parts) =>
      DigitsValueUpperBound(day);
      Some(ToISO(parts.year, parts.month, DigitsValue(day)))
    case None => None
  }

  /**
   * Bare-day backfill (src/dates.js:217-229): a side that did not parse but
   * is a bare 1-2 digit day borrows year and month from the other side. The
   * right side is tried first, and the left side only borrows from a right
   * side that parsed on its own or by backfill.
   */
  function Backfill(left: string, right: string, start: Option<string>, end: Option<string>): (r: Option<(string, string)>)
    requires start.Some? ==> MonthDayShaped(start.value)
    requires end.Some? ==> MonthDayShaped(end.value)
    ensures r.Some? ==> MonthDayShaped(r.value.0) && MonthDayShaped(r.value.1)
  {
    var endFilled :=
      if end.None? && Match(BareDay, right).Some? && start.Some? then BareDayFits(right); Borrow(start.value, right) else end;
    var startFilled :=
      if start.None? && Match(BareDay, left).Some? && endFilled.Some? then BareDayFits(left); Borrow(endFilled.value, left) else start;
    if startFilled.Some? && endFilled.Some? then Some((startFilled.value, endFilled.value)) else None
  }

  /** The year of the endpoints: a `20dd` in the right part, else the current year. */
  function FallbackYear(right: string, currentYear: int): int {
    match YearIn(right) case Some(y) => y case None => currentYear
  }

  /** The two-endpoint case of `parseDateRangeFlexible` (src/dates.js:195-233). */
  function ParseEndpoints(left: string, right: string, currentYear: int): (r: Option<Range>)
    ensures r.Some? ==> LexLe(r.value.start, r.value.end)
    ensures r.Some? ==> MonthDayShaped(r.value.start) && MonthDayShaped(r.value.end)
  {
    var fallbackYear := FallbackYear(right, currentYear);
    match CompactRange(left, right, fallbackYear)
    case Some(range) => Some(range)
    case None =>
      var start := ParseOneDate(left, fallbackYear);
      var end := ParseOneDate(right, fallbackYear);
      match Backfill(left, right, start, end)
      case Some(pair) => Some(CompareOrder(pair.0, pair.1))
      case None => None
  }

  /** After the ISO searches: two endpoints when the message splits, else one single date. */
  function ParseSplitOrSingle(norm: string, currentYear: int): (r: Option<Range>)
    ensures r.Some? ==> LexLe(r.value.start, r.value.end)
    ensures r.Some? ==> MonthDayShaped(r.value.start) && MonthDayShaped(r.value.end)
  {
    match SplitEndpoints(norm)
    case Some(parts) => ParseEndpoints(parts.0, parts.1, currentYear)
    case None =>
      match ParseOneDate(norm, currentYear)
      case Some(single) => LexLeReflexive(single); Some(Range(single, single))
      case None => None
  }

  /** The two ISO searches, verbatim tokens in order (src/dates.js:166-174). */
  function IsoRange(norm: string): (r: Option<Range>)
    ensures r.Some? ==> LexLe(r.value.start, r.value.end)
    ensures r.Some? ==> MonthDayShaped(r.value.start) && MonthDayShaped(r.value.end)
  {
    var pair := if FindIsoPair(norm).Some? then FindIsoPair(norm) else FindIsoCompact(norm);
    match pair
    case Some(p) =>
      IsoShapedIsMonthDay(p.0);
      IsoShapedIsMonthDay(p.1);
      Some(CompareOrder(p.0, p.1))
    case None => None
  }

  /** The strategies tried on a non-empty normalised message, in the source's order. */
  function ParseNormalized(norm: string, currentYear: int): (r: Option<Range>)
    ensures r.Some? ==> LexLe(r.value.start, r.value.end)
    ensures r.Some? ==> MonthDayShaped(r.value.start) && MonthDayShaped(r.value.end)
  {
    if ParseSameMonthRange(norm, currentYear).Some? then ParseSameMonthRange(norm, currentYear)
    else if IsoRange(norm).Some? then IsoRange(norm)
    else ParseSplitOrSingle(norm, currentYear)
  }

  /** `parseDateRangeFlexible`; `None` is the source's `null`. */
  function ParseDateRangeFlexible(text: string, currentYear: int): (r: Option<Range>)
    ensures r.Some? ==> LexLe(r.value.start, r.value.end)
    ensures r.Some? ==> MonthDayShaped(r.value.start) && MonthDayShaped(r.value.end)
  {
    var norm := Normalize(text);
    if norm == [] then None else ParseNormalized(norm, currentYear)
  }
}
