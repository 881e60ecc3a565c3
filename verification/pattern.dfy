/**
 * The anchored regular expressions of the date parser, as sequences of atoms.
 * Every such expression there is a chain `^A1 A2 ... An$` where each atom is a
 * character class with a repetition count (`\d{1,2}`, `\s+`, `[./-]`, ...), and
 * neighbouring atoms use disjoint classes. For such a chain backtracking never
 * helps, so the engine's leftmost match is the maximal-munch split computed by
 * `Match`; its postcondition and `MatchComplete` tie it to the declarative meaning
 * "the string is the concatenation of one fitting group per atom".
 */
module Pattern {
  import opened Wrappers
  import opened Text

  /** `\d`, `\s`, `[a-zа-яё]`, `[./-]` and a literal `-`. */
  datatype CharClass = Digit | Space | Letter | DateSep | Hyphen

  predicate InClass(k: CharClass, c: char) {
    match k
    case Digit => IsDigit(c)
    case Space => IsSpace(c)
    case Letter => IsLetter(c)
    case DateSep => c == '.' || c == '/' || c == '-'
    case Hyphen => c == '-'
  }

  /** Two classes no character belongs to both of. */
  predicate Disjoint(a: CharClass, b: CharClass) {
    a != b && !(a in {DateSep, Hyphen} && b in {DateSep, Hyphen})
  }

  lemma DisjointSound(a: CharClass, b: CharClass, c: char)
    requires Disjoint(a, b) && InClass(a, c)
    ensures !InClass(b, c)
  {
  }

  /** The repetition count's upper end: `{m,n}` or `+`. */
  datatype Bound = AtMost(n: nat) | Unbounded

  datatype Atom = Atom(cls: CharClass, lo: nat, hi: Bound)

  /** `t` is a string the atom alone matches. */
  predicate Fits(a: Atom, t: string) {
    a.lo <= |t| && (a.hi.AtMost? ==> |t| <= a.hi.n)
    && forall i :: 0 <= i < |t| ==> InClass(a.cls, t[i])
  }

  /** Every atom needs a character and neighbouring atoms use disjoint classes. */
  predicate WellFormed(p: seq<Atom>) {
    && (forall i :: 0 <= i < |p| ==> p[i].lo >= 1)
    && (forall i :: 0 <= i < |p| - 1 ==> Disjoint(p[i].cls, p[i + 1].cls))
  }

  function Concat(gs: seq<string>): string {
    if gs == [] then [] else gs[0] + Concat(gs[1..])
  }

  /** The length of the longest prefix of `s` inside class `k`. */
  function RunLength(k: CharClass, s: string): (n: nat)
    ensures n <= |s|
    ensures forall i :: 0 <= i < n ==> InClass(k, s[i])
    ensures n < |s| ==> !InClass(k, s[n])
  {
    if s != [] && InClass(k, s[0]) then 1 + RunLength(k, s[1..]) else 0
  }

  /** A run of class `k` followed by a character outside `k` (or by nothing) has exactly its own length. */
  lemma {:induction false} RunLengthOfConcat(k: CharClass, x: string, y: string)
    requires forall i :: 0 <= i < |x| ==> InClass(k, x[i])
    requires y != [] ==> !InClass(k, y[0])
    ensures RunLength(k, x + y) == |x|
  {
    if x != [] {
      assert (x + y)[1..] == x[1..] + y;
      RunLengthOfConcat(k, x[1..], y);
    } else {
      assert x + y == y;
    }
  }

  /**
   * Matches `s` against the anchored chain `p` and returns the captured text
   * of every atom, or `None` when the expression does not match.
   */
  function Match(p: seq<Atom>, s: string): (r: Option<seq<string>>)
    ensures r.Some? ==> |r.value| == |p| && Concat(r.value) == s
    ensures r.Some? ==> forall i :: 0 <= i < |p| ==> Fits(p[i], r.value[i])
    decreases |p|
  {
    if p == [] then
      if s == [] then Some([]) else None
    else
      var n := RunLength(p[0].cls, s);
      if !Fits(p[0], s[..n]) then None
      else
        match Match(p[1..], s[n..])
        case None => None
        case Some(gs) =>
          assert s == s[..n] + Concat(gs);
          Some([s[..n]] + gs)
  }

  /** Whatever splits `s` into fitting groups is what `Match` captures. */
  lemma {:induction false} MatchComplete(p: seq<Atom>, gs: seq<string>)
    requires WellFormed(p)
    requires |gs| == |p|
    requires forall i :: 0 <= i < |p| ==> Fits(p[i], gs[i])
    ensures Match(p, Concat(gs)) == Some(gs)
  {
    if p != [] {
      var s := Concat(gs);
      var rest := Concat(gs[1..]);
      assert s == gs[0] + rest;
      if |p| > 1 {
        assert Fits(p[1], gs[1]);
        assert rest == gs[1] + Concat(gs[2..]);
        assert rest[0] == gs[1][0];
        DisjointSound(p[1].cls, p[0].cls, rest[0]);
      } else {
        assert gs[1..] == [];
      }
      RunLengthOfConcat(p[0].cls, gs[0], rest);
      assert s[..|gs[0]|] == gs[0];
      assert s[|gs[0]|..] == rest;
      assert WellFormed(p[1..]) by {
        forall i | 0 <= i < |p| - 2 ensures Disjoint(p[1..][i].cls, p[1..][i + 1].cls) {
          assert Disjoint(p[i + 1].cls, p[i + 2].cls);
        }
      }
      MatchComplete(p[1..], gs[1..]);
      assert [gs[0]] + gs[1..] == gs;
    }
  }

  /** A one-character string is a concatenation of one group. */
  lemma ConcatOne(a: string)
    ensures Concat([a]) == a
  {
    assert [a][1..] == [];
  }

  /** `Concat` distributes over sequence concatenation. */
  lemma {:induction false} ConcatAppend(xs: seq<string>, ys: seq<string>)
    ensures Concat(xs + ys) == Concat(xs) + Concat(ys)
  {
    if xs == [] {
      assert xs + ys == ys;
    } else {
      assert (xs + ys)[0] == xs[0];
      assert (xs + ys)[1..] == xs[1..] + ys;
      ConcatAppend(xs[1..], ys);
    }
  }

  /** Every character of a group occurs in the concatenation. */
  lemma {:induction false} ConcatHas(gs: seq<string>, i: nat, j: nat)
    requires i < |gs| && j < |gs[i]|
    ensures gs[i][j] in Concat(gs)
  {
    assert Concat(gs) == gs[0] + Concat(gs[1..]);
    if i == 0 {
      assert (gs[0] + Concat(gs[1..]))[j] == gs[0][j];
    } else {
      assert gs[1..][i - 1] == gs[i];
      ConcatHas(gs[1..], i - 1, j);
    }
  }

  /** A chain with an atom of class `k` cannot match a string that has no character of class `k`. */
  lemma MatchNeedsClass(p: seq<Atom>, s: string, i: nat)
    requires i < |p| && p[i].lo >= 1
    requires forall j :: 0 <= j < |s| ==> !InClass(p[i].cls, s[j])
    ensures Match(p, s).None?
  {
    if Match(p, s).Some? {
      var gs := Match(p, s).value;
      assert Fits(p[i], gs[i]);
      ConcatHas(gs, i, 0);
    }
  }

  /**
   * Matching a string that starts with a whole run `g` of the first atom's
   * class: the run is the first group, and the rest of the chain matches the rest.
   */
  lemma MatchHead(p: seq<Atom>, g: string, rest: string)
    requires p != []
    requires forall i :: 0 <= i < |g| ==> InClass(p[0].cls, g[i])
    requires rest == [] || !InClass(p[0].cls, rest[0])
    ensures !Fits(p[0], g) ==> Match(p, g + rest).None?
    ensures Fits(p[0], g) ==> Match(p, g + rest).Some? == Match(p[1..], rest).Some?
    ensures Fits(p[0], g) && Match(p[1..], rest).Some? ==>
      Match(p, g + rest).value == [g] + Match(p[1..], rest).value
  {
    RunLengthOfConcat(p[0].cls, g, rest);
    assert (g + rest)[..|g|] == g;
    assert (g + rest)[|g|..] == rest;
  }

  /** A chain whose first atom needs a character fails on a string that does not start with one of its class. */
  lemma MatchStops(p: seq<Atom>, s: string)
    requires p != [] && p[0].lo >= 1
    requires s == [] || !InClass(p[0].cls, s[0])
    ensures Match(p, s).None?
  {
  }

  lemma ConcatThree(a: string, b: string, c: string)
    ensures Concat([a, b, c]) == a + b + c
  {
    assert [a, b, c][1..] == [b, c];
    assert [b, c][1..] == [c];
    ConcatOne(c);
  }

  lemma ConcatFive(a: string, b: string, c: string, d: string, e: string)
    ensures Concat([a, b, c, d, e]) == a + b + c + d + e
  {
    assert [a, b, c, d, e][1..] == [b, c, d, e];
    assert [b, c, d, e][1..] == [c, d, e];
    ConcatThree(c, d, e);
  }

  lemma ConcatSeven(a: string, b: string, c: string, d: string, e: string, f: string, g: string)
    ensures Concat([a, b, c, d, e, f, g]) == a + b + c + d + e + f + g
  {
    assert [a, b, c, d, e, f, g][1..] == [b, c, d, e, f, g];
    assert [b, c, d, e, f, g][1..] == [c, d, e, f, g];
    ConcatFive(c, d, e, f, g);
  }
}
