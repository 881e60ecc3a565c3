/**
 * The text normalisation at the head of `parseDateRangeFlexible`
 * (src/dates.js:152-159): seven global replacements applied in order.
 */
module Normalization {
  import opened Text

  /** A character the case-insensitive `t` of `/to/gi` matches. */
  predicate IsT(c: char) { LowerChar(c) == 't' }

  /** A character the case-insensitive `o` of `/to/gi` matches. */
  predicate IsO(c: char) { LowerChar(c) == 'o' }

  /** The en dash and the em dash of `/–|—/g`. */
  predicate IsDash(c: char) { c == '–' || c == '—' }

  /** No `t` is immediately followed by an `o`, in either case. */
  predicate NoTo(s: string) {
    forall i :: 0 <= i < |s| - 1 ==> !(IsT(s[i]) && IsO(s[i + 1]))
  }

  /**
   * `.replace(/с\s+/gi, '')`: a Cyrillic `с` and the white space after it are
   * deleted, wherever they stand (not only at the start of the message).
   * Only `с` and `С` are recognised; the rarer characters that `/i` also folds
   * onto `С` are kept.
   */
  function StripFrom(s: string): string
    decreases |s|
  {
    if s == [] then []
    else
      var n := LeadingSpaces(s[1..]);
      if LowerChar(s[0]) == 'с' && n > 0 then StripFrom(s[1 + n..])
      else [s[0]] + StripFrom(s[1..])
  }

  /**
   * `.replace(/\s+по\s+/gi, '-')` for `x == 'п'` and `.replace(/\s+до\s+/gi, '-')`
   * for `x == 'д'`: the two-letter word with the white space around it becomes a hyphen.
   * Only the ordinary upper- and lower-case letters are recognised; the rarer
   * characters that `/i` also folds onto `О` or `Д` are kept.
   */
  function ReplaceConnective(s: string, x: char): string
    decreases |s|
  {
    if s == [] then []
    else
      var a := LeadingSpaces(s);
      if 0 < a && a + 2 <= |s| && LowerChar(s[a]) == x && LowerChar(s[a + 1]) == 'о'
         && LeadingSpaces(s[a + 2..]) > 0
      then "-" + ReplaceConnective(s[a + 2 + LeadingSpaces(s[a + 2..])..], x)
      else [s[0]] + ReplaceConnective(s[1..], x)
  }

  /** A connective right at the start, between single spaces, becomes a hyphen. */
  lemma ConnectiveAtHead(x: char, rest: string)
    requires x == 'п' || x == 'д'
    requires rest == [] || !IsSpace(rest[0])
    ensures ReplaceConnective([' ', x, 'о', ' '] + rest, x) == "-" + ReplaceConnective(rest, x)
  {
    var s := [' ', x, 'о', ' '] + rest;
    assert s == " " + ([x, 'о', ' '] + rest);
    LeadingSpacesOf(" ", [x, 'о', ' '] + rest);
    assert s[3..] == " " + rest;
    LeadingSpacesOf(" ", rest);
    assert s[4..] == rest;
  }

  /** A non-space character in front is copied through unchanged. */
  lemma ReplaceConnectiveCopies(c: char, s: string, x: char)
    requires !IsSpace(c)
    ensures ReplaceConnective([c] + s, x) == [c] + ReplaceConnective(s, x)
  {
    assert ([c] + s)[1..] == s;
  }

  /** A two-letter connective between single spaces, after a one-word prefix, becomes a hyphen. */
  lemma {:induction false} ConnectiveReplaced(w: string, x: char, rest: string)
    requires x == 'п' || x == 'д'
    requires forall i :: 0 <= i < |w| ==> !IsSpace(w[i])
    requires rest == [] || !IsSpace(rest[0])
    ensures ReplaceConnective(w + ([' ', x, 'о', ' '] + rest), x) == w + ("-" + ReplaceConnective(rest, x))
    decreases |w|
  {
    var tail := [' ', x, 'о', ' '] + rest;
    if w == [] {
      assert w + tail == tail;
      ConnectiveAtHead(x, rest);
    } else {
      ConsConcat(w, tail);
      ReplaceConnectiveCopies(w[0], w[1..] + tail, x);
      ConnectiveReplaced(w[1..], x, rest);
      ConsConcat(w, "-" + ReplaceConnective(rest, x));
    }
  }

  /**
   * `.replace(/to/gi, '-')`: every `to`, also inside words, becomes a hyphen
   * (`"october"` turns into `"oc-ber"`).
   */
  function ReplaceTo(s: string): (r: string)
    ensures NoTo(r)
    ensures s != [] ==> r != [] && (r[0] == '-' || r[0] == s[0])
    ensures s == [] ==> r == []
    decreases |s|
  {
    if s == [] then []
    else if |s| >= 2 && IsT(s[0]) && IsO(s[1]) then "-" + ReplaceTo(s[2..])
    else [s[0]] + ReplaceTo(s[1..])
  }

  function UnifyDash(c: char): char {
    if IsDash(c) then '-' else c
  }

  /** `.replace(/–|—/g, '-')` */
  function UnifyDashes(s: string): (r: string)
    ensures |r| == |s|
    ensures forall i :: 0 <= i < |s| ==> r[i] == UnifyDash(s[i])
  {
    if s == [] then [] else [UnifyDash(s[0])] + UnifyDashes(s[1..])
  }

  /** Unifying dashes works character by character, so it distributes over concatenation. */
  lemma UnifyDashesAppend(a: string, b: string)
    ensures UnifyDashes(a + b) == UnifyDashes(a) + UnifyDashes(b)
  {
    var u := UnifyDashes(a + b);
    var w := UnifyDashes(a) + UnifyDashes(b);
    forall i | 0 <= i < |a + b| ensures u[i] == w[i] {
      if i < |a| {
        assert (a + b)[i] == a[i];
      } else {
        assert (a + b)[i] == b[i - |a|];
      }
    }
  }

  /** A string without en or em dashes is left as it is. */
  lemma UnifyDashesFixes(s: string)
    requires forall i :: 0 <= i < |s| ==> !IsDash(s[i])
    ensures UnifyDashes(s) == s
  {
    var u := UnifyDashes(s);
    forall i | 0 <= i < |s| ensures u[i] == s[i] {
    }
  }

  /** `.replace(/\s+/g, ' ')` */
  function CollapseSpaces(s: string): (r: string)
    ensures s == [] <==> r == []
    ensures s != [] ==> r[0] == if IsSpace(s[0]) then ' ' else s[0]
    decreases |s|
  {
    if s == [] then []
    else
      var n := LeadingSpaces(s);
      if n > 0 then " " + CollapseSpaces(s[n..]) else [s[0]] + CollapseSpaces(s[1..])
  }

  /** The whole normalisation, ending with `.trim()`. */
  function Normalize(text: string): (r: string)
    ensures Normalized(r)
  {
    var t := ReplaceTo(ReplaceConnective(ReplaceConnective(StripFrom(text), 'п'), 'д'));
    UnifyDashesKeepsNoTo(t);
    var u := UnifyDashes(t);
    CollapseSpacesShape(u);
    var c := CollapseSpaces(u);
    TrimKeepsShape(c);
    Trim(c)
  }

  /** Single spaces are the only white space, never two in a row nor at either end. */
  predicate SingleSpaced(s: string) {
    && (forall i :: 0 <= i < |s| ==> IsSpace(s[i]) ==> s[i] == ' ')
    && (forall i :: 0 <= i < |s| - 1 ==> !(s[i] == ' ' && s[i + 1] == ' '))
    && (s != [] ==> s[0] != ' ' && s[|s| - 1] != ' ')
  }

  /** What every normalised string looks like: single-spaced, with no en or em dash and no `to`. */
  predicate Normalized(s: string) {
    && SingleSpaced(s)
    && (forall i :: 0 <= i < |s| ==> !IsDash(s[i]))
    && NoTo(s)
  }

  /** No `с` (either case) is followed by white space. */
  predicate NoFrom(s: string) {
    forall i :: 0 <= i < |s| - 1 ==> !(LowerChar(s[i]) == 'с' && IsSpace(s[i + 1]))
  }

  /** The two-letter word `xо` (either case) stands between white space at position `i`. */
  predicate ConnectiveAt(s: string, i: nat, x: char)
    requires i + 3 < |s|
  {
    IsSpace(s[i]) && LowerChar(s[i + 1]) == x && LowerChar(s[i + 2]) == 'о' && IsSpace(s[i + 3])
  }

  /** No two-letter word `xо` (either case) stands between white space. */
  predicate NoConnective(s: string, x: char) {
    forall i: nat :: i + 3 < |s| ==> !ConnectiveAt(s, i, x)
  }

  /** A message none of the replacements rewrites, except possibly for its dashes. */
  predicate Settled(s: string) {
    SingleSpaced(s) && NoFrom(s) && NoConnective(s, 'п') && NoConnective(s, 'д') && NoTo(s)
  }

  lemma UnifyDashesKeepsNoTo(s: string)
    requires NoTo(s)
    ensures NoTo(UnifyDashes(s))
    ensures forall i :: 0 <= i < |s| ==> !IsDash(UnifyDashes(s)[i])
  {
    var u := UnifyDashes(s);
    forall i | 0 <= i < |s| - 1 ensures !(IsT(u[i]) && IsO(u[i + 1])) {
      UnifyDashChar(s[i]);
      UnifyDashChar(s[i + 1]);
    }
    forall i | 0 <= i < |s| ensures !IsDash(u[i]) {
      UnifyDashChar(s[i]);
    }
  }

  /** A unified character is no dash, and a `t` or an `o` after unifying was one before. */
  lemma UnifyDashChar(c: char)
    ensures !IsDash(UnifyDash(c))
    ensures IsT(UnifyDash(c)) ==> IsT(c)
    ensures IsO(UnifyDash(c)) ==> IsO(c)
  {
  }

  /** Collapsing white space keeps the absence of dashes and of `to`, and leaves single spaces only. */
  lemma {:induction false} CollapseSpacesShape(s: string)
    requires NoTo(s)
    requires forall i :: 0 <= i < |s| ==> !IsDash(s[i])
    ensures var r := CollapseSpaces(s);
      && (forall i :: 0 <= i < |r| ==> IsSpace(r[i]) ==> r[i] == ' ')
      && (forall i :: 0 <= i < |r| - 1 ==> !(r[i] == ' ' && r[i + 1] == ' '))
      && (forall i :: 0 <= i < |r| ==> !IsDash(r[i]))
      && NoTo(r)
    decreases |s|
  {
    if s != [] {
      var n := LeadingSpaces(s);
      var r := CollapseSpaces(s);
      if n > 0 {
        var t := s[n..];
        CollapseSpacesShape(t);
        assert r == " " + CollapseSpaces(t);
      } else {
        var t := s[1..];
        CollapseSpacesShape(t);
        assert r == [s[0]] + CollapseSpaces(t);
        if t != [] {
          assert s[1] == t[0];
          assert IsT(s[0]) ==> !IsO(t[0]);
        }
      }
    }
  }

  /** Taking a slice keeps every property that speaks of single characters and neighbours. */
  lemma SliceKeepsShape(s: string, a: nat, b: nat)
    requires a <= b <= |s|
    requires forall i :: 0 <= i < |s| ==> IsSpace(s[i]) ==> s[i] == ' '
    requires forall i :: 0 <= i < |s| - 1 ==> !(s[i] == ' ' && s[i + 1] == ' ')
    requires forall i :: 0 <= i < |s| ==> !IsDash(s[i])
    requires NoTo(s)
    ensures var t := s[a..b];
      && (forall i :: 0 <= i < |t| ==> IsSpace(t[i]) ==> t[i] == ' ')
      && (forall i :: 0 <= i < |t| - 1 ==> !(t[i] == ' ' && t[i + 1] == ' '))
      && (forall i :: 0 <= i < |t| ==> !IsDash(t[i]))
      && NoTo(t)
  {
    var t := s[a..b];
    assert forall i :: 0 <= i < |t| ==> t[i] == s[a + i];
  }

  /** Trimming collapsed, dash-free text without `to` leaves it in the normal shape. */
  lemma TrimKeepsShape(c: string)
    requires forall i :: 0 <= i < |c| ==> IsSpace(c[i]) ==> c[i] == ' '
    requires forall i :: 0 <= i < |c| - 1 ==> !(c[i] == ' ' && c[i + 1] == ' ')
    requires forall i :: 0 <= i < |c| ==> !IsDash(c[i])
    requires NoTo(c)
    ensures Normalized(Trim(c))
  {
    var a, b := TrimSlice(c);
    SliceKeepsShape(c, a, b);
  }

  /** Text in which no `с` is followed by white space is left as it is. */
  lemma {:induction false} StripFromSettled(s: string)
    requires NoFrom(s)
    ensures StripFrom(s) == s
    decreases |s|
  {
    if s != [] {
      var n := LeadingSpaces(s[1..]);
      if n > 0 {
        assert s[1..][..n][0] == s[1];
      }
      StripFromSettled(s[1..]);
      assert [s[0]] + s[1..] == s;
    }
  }

  lemma NoConnectiveTail(s: string, x: char)
    requires s != [] && NoConnective(s, x)
    ensures NoConnective(s[1..], x)
  {
    forall i: nat | i + 3 < |s[1..]| ensures !ConnectiveAt(s[1..], i, x) {
      var t := s[1..];
      assert t[i] == s[i + 1] && t[i + 1] == s[i + 2] && t[i + 2] == s[i + 3] && t[i + 3] == s[i + 4];
      assert !ConnectiveAt(s, i + 1, x);
    }
  }

  /** Where the connective scan would fire, `s` has a connective. */
  lemma ConnectiveAtStart(s: string, x: char)
    requires NoConnective(s, x)
    ensures var a := LeadingSpaces(s);
      !(0 < a && a + 2 <= |s| && LowerChar(s[a]) == x && LowerChar(s[a + 1]) == 'о' && LeadingSpaces(s[a + 2..]) > 0)
  {
    var a := LeadingSpaces(s);
    if 0 < a && a + 3 <= |s| {
      assert s[..a][a - 1] == s[a - 1];
      assert s[a + 2..][0] == s[a + 2];
      assert !ConnectiveAt(s, a - 1, x);
    }
  }

  /** Text in which no connective `xо` stands between white space is left as it is. */
  lemma {:induction false} ReplaceConnectiveSettled(s: string, x: char)
    requires NoConnective(s, x)
    ensures ReplaceConnective(s, x) == s
    decreases |s|
  {
    if s != [] {
      ConnectiveAtStart(s, x);
      NoConnectiveTail(s, x);
      ReplaceConnectiveSettled(s[1..], x);
      assert [s[0]] + s[1..] == s;
    }
  }

  lemma {:induction false} ReplaceToSettled(s: string)
    requires NoTo(s)
    ensures ReplaceTo(s) == s
    decreases |s|
  {
    if s != [] {
      ReplaceToSettled(s[1..]);
      assert [s[0]] + s[1..] == s;
    }
  }

  lemma {:induction false} CollapseSpacesSettled(s: string)
    requires forall i :: 0 <= i < |s| ==> IsSpace(s[i]) ==> s[i] == ' '
    requires forall i :: 0 <= i < |s| - 1 ==> !(s[i] == ' ' && s[i + 1] == ' ')
    ensures CollapseSpaces(s) == s
    decreases |s|
  {
    if s != [] {
      var n := LeadingSpaces(s);
      CollapseSpacesSettled(s[1..]);
      assert [s[0]] + s[1..] == s;
    }
  }

  /** Unifying dashes touches no white space. */
  lemma UnifyDashesKeepsSpacing(s: string)
    requires SingleSpaced(s)
    ensures SingleSpaced(UnifyDashes(s))
  {
    var u := UnifyDashes(s);
    forall i | 0 <= i < |s| ensures (IsSpace(u[i]) <==> IsSpace(s[i])) && (u[i] == ' ' <==> s[i] == ' ') {
      assert u[i] == UnifyDash(s[i]);
    }
  }

  /** The four rewriting passes before the dash unification leave a settled message alone. */
  lemma RewritesSettled(s: string)
    requires Settled(s)
    ensures ReplaceTo(ReplaceConnective(ReplaceConnective(StripFrom(s), 'п'), 'д')) == s
  {
    StripFromSettled(s);
    ReplaceConnectiveSettled(s, 'п');
    ReplaceConnectiveSettled(s, 'д');
    ReplaceToSettled(s);
  }

  /** A settled message is normalised by unifying its dashes alone. */
  lemma NormalizeSettled(s: string)
    requires Settled(s)
    ensures Normalize(s) == UnifyDashes(s)
  {
    RewritesSettled(s);
    var u := UnifyDashes(s);
    UnifyDashesKeepsSpacing(s);
    CollapseSpacesSettled(u);
    TrimNoop(u);
  }

  /** A settled message without en or em dashes is already normal and normalisation leaves it alone. */
  lemma NormalizeFixes(s: string)
    requires Settled(s)
    requires forall i :: 0 <= i < |s| ==> !IsDash(s[i])
    ensures Normalized(s)
    ensures Normalize(s) == s
  {
    NormalizeSettled(s);
  }

  /** Text without a `с` passes the `с` deletion unchanged. */
  lemma {:induction false} StripFromKeeps(a: string, rest: string)
    requires forall i :: 0 <= i < |a| ==> LowerChar(a[i]) != 'с'
    ensures StripFrom(a + rest) == a + StripFrom(rest)
    decreases |a|
  {
    if a != [] {
      ConsConcat(a, rest);
      StripFromKeeps(a[1..], rest);
      ConsConcat(a, StripFrom(rest));
    } else {
      assert a + rest == rest;
    }
  }

  /**
   * `с` and the white space after it are deleted wherever they stand, also
   * in the middle of the message (src/dates.js:153).
   */
  lemma StripFromAnywhere(a: string, b: string)
    requires forall i :: 0 <= i < |a| ==> LowerChar(a[i]) != 'с'
    requires b == [] || !IsSpace(b[0])
    ensures StripFrom(a + "с " + b) == a + StripFrom(b)
  {
    var s := "с " + b;
    assert a + "с " + b == a + s;
    StripFromKeeps(a, s);
    LeadingSpacesOf(" ", b);
    assert s[1..] == " " + b;
    assert s[2..] == b;
  }

  /** A bare "с " normalises to the empty string, although it is not white space. */
  lemma FromAloneVanishes()
    ensures Normalize("с ") == []
  {
    StripFromAnywhere([], []);
    assert [] + "с " + [] == "с ";
  }

  /** Text without `to` before a `to` is kept, and the `to` becomes a hyphen. */
  lemma ReplaceToKeeps(a: string, b: string)
    requires NoTo(a)
    ensures ReplaceTo(a + "to" + b) == a + "-" + ReplaceTo(b)
  {
    ReplaceToKeepsNested(a, b);
    Assoc(a, "to", b);
    Assoc(a, "-", ReplaceTo(b));
  }

  lemma {:induction false} ReplaceToKeepsNested(a: string, b: string)
    requires NoTo(a)
    ensures ReplaceTo(a + ("to" + b)) == a + ("-" + ReplaceTo(b))
    decreases |a|
  {
    var rest := "to" + b;
    if a != [] {
      ConsConcat(a, rest);
      var s := a + rest;
      assert s[1] == if |a| >= 2 then a[1] else 't';
      assert NoTo(a[1..]) by {
        forall i | 0 <= i < |a[1..]| - 1 ensures !(IsT(a[1..][i]) && IsO(a[1..][i + 1])) {
          assert a[1..][i] == a[i + 1] && a[1..][i + 1] == a[i + 2];
        }
      }
      ReplaceToKeepsNested(a[1..], b);
      ConsConcat(a, "-" + ReplaceTo(b));
    } else {
      assert a + rest == rest && rest[2..] == b;
      assert a + ("-" + ReplaceTo(b)) == "-" + ReplaceTo(b);
    }
  }

  lemma OctoberRewritten()
    ensures ReplaceTo("october") == "oc-ber"
  {
    var oc, ber := "oc", "ber";
    assert !IsT(oc[0]) && !IsT(ber[0]) && !IsT(ber[1]);
    assert NoTo(oc) && NoTo(ber);
    assert "october" == oc + ("to" + ber);
    ReplaceToKeepsNested(oc, ber);
    ReplaceToSettled(ber);
    assert oc + ("-" + ber) == "oc-ber";
  }

  /** `october`, in any case, starts at position `i`. */
  predicate OctoberAt(s: string, i: nat) {
    i + 7 <= |s| && Lower(s[i..i + 7]) == "october"
  }

  /** No normalised message contains `october` in any case. */
  lemma NoOctoberSurvives(text: string)
    ensures var n := Normalize(text);
      forall i: nat :: i < |n| ==> !OctoberAt(n, i)
  {
    NoToNoOctober(Normalize(text));
  }

  /** `constructor` has a `to` inside, so a text without one never reads `constructor`. */
  lemma NoToNoConstructor(w: string)
    requires NoTo(w)
    ensures Lower(w) != "constructor"
  {
    if |w| == 11 {
      assert !(IsT(w[8]) && IsO(w[9]));
      assert Lower(w)[8] == LowerChar(w[8]) && Lower(w)[9] == LowerChar(w[9]);
    }
  }

  /**
   * No piece of a normalised message reads `constructor` in any case, so the month
   * lookup never meets the one key every plain object inherits that a word could spell.
   */
  lemma NoConstructorSurvives(text: string, i: nat, j: nat)
    requires i <= j <= |Normalize(text)|
    ensures Lower(Normalize(text)[i..j]) != "constructor"
  {
    var n := Normalize(text);
    var t := n[i..j];
    forall k | 0 <= k < |t| - 1 ensures !(IsT(t[k]) && IsO(t[k + 1])) {
      assert t[k] == n[i + k] && t[k + 1] == n[i + k + 1];
    }
    NoToNoConstructor(t);
  }

  /** `october` has a `to` inside, so a text without one has no `october`. */
  lemma NoToNoOctober(n: string)
    requires NoTo(n)
    ensures forall i: nat :: i < |n| ==> !OctoberAt(n, i)
  {
    forall i: nat | i < |n| ensures !OctoberAt(n, i) {
      if i + 7 <= |n| {
        var w := n[i..i + 7];
        assert w[2] == n[i + 2] && w[3] == n[i + 3];
        assert !(IsT(w[2]) && IsO(w[3]));
      }
    }
  }
}
