/**
 * The bilingual month-name table and the month resolver of the date parser
 * (`MONTHS` and `resolveMonth` in src/dates.js).
 */
module Months {
  import opened Wrappers
  import opened Text

  /** A three-letter stem of the table: its month and the endings that make up the table's keys. */
  datatype Stem = Stem(month: int, endings: seq<string>)

  /**
   * The keys of `MONTHS`, grouped by their first three letters: the key set is
   * exactly { stem + ending }. Every key is at least three letters long; the
   * empty ending lists the bare stem, which is a key in every group.
   */
  function StemOf(a: char, b: char, c: char): Option<Stem> {
    match (a, b, c)
    case ('я', 'н', 'в') => Some(Stem(1, ["", "арь", "аря"]))
    case ('ф', 'е', 'в') => Some(Stem(2, ["", "раль", "раля"]))
    case ('м', 'а', 'р') => Some(Stem(3, ["", "т", "та"]))
    case ('а', 'п', 'р') => Some(Stem(4, ["", "ель", "еля"]))
    case ('м', 'а', 'й') => Some(Stem(5, [""]))
    case ('м', 'а', 'я') => Some(Stem(5, [""]))
    case ('и', 'ю', 'н') => Some(Stem(6, ["", "ь", "я"]))
    case ('и', 'ю', 'л') => Some(Stem(7, ["", "ь", "я"]))
    case ('а', 'в', 'г') => Some(Stem(8, ["", "уст", "уста"]))
    case ('с', 'е', 'н') => Some(Stem(9, ["", "тябрь", "тября"]))
    case ('о', 'к', 'т') => Some(Stem(10, ["", "ябрь", "ября"]))
    case ('н', 'о', 'я') => Some(Stem(11, ["", "брь", "бря"]))
    case ('д', 'е', 'к') => Some(Stem(12, ["", "абрь", "абря"]))
    case ('j', 'a', 'n') => Some(Stem(1, ["", "uary"]))
    case ('f', 'e', 'b') => Some(Stem(2, ["", "ruary"]))
    case ('m', 'a', 'r') => Some(Stem(3, ["", "ch"]))
    case ('a', 'p', 'r') => Some(Stem(4, ["", "il"]))
    case ('m', 'a', 'y') => Some(Stem(5, [""]))
    case ('j', 'u', 'n') => Some(Stem(6, ["", "e"]))
    case ('j', 'u', 'l') => Some(Stem(7, ["", "y"]))
    case ('a', 'u', 'g') => Some(Stem(8, ["", "ust"]))
    case ('s', 'e', 'p') => Some(Stem(9, ["", "t", "tember"]))
    case ('o', 'c', 't') => Some(Stem(10, ["", "ober"]))
    case ('n', 'o', 'v') => Some(Stem(11, ["", "ember"]))
    case ('d', 'e', 'c') => Some(Stem(12, ["", "ember"]))
    case _ => None
  }

  /** The month of a string's three-letter stem, whatever follows it. */
  function StemMonth(k: string): Option<int> {
    if |k| < 3 then None
    else match StemOf(k[0], k[1], k[2])
      case Some(st) => Some(st.month)
      case None => None
  }

  /** `MONTHS[k]`: the month of key `k`, or `None` when `k` is not a key of the table. */
  function Lookup(k: string): (r: Option<int>)
    ensures r.Some? ==> 1 <= r.value <= 12
    ensures r.Some? ==> r == StemMonth(k)
  {
    if |k| < 3 then None
    else match StemOf(k[0], k[1], k[2])
      case Some(st) => if k[3..] in st.endings then Some(st.month) else None
      case None => None
  }

  /**
   * The table is closed under three-letter prefixes: the first three letters
   * of every key are a key too, and they name the same month.
   */
  lemma PrefixClosed(k: string)
    requires Lookup(k).Some?
    ensures |k| >= 3 && Lookup(k[..3]) == Lookup(k)
  {
    var p := k[..3];
    assert p[3..] == "";
  }

  /**
   * `resolveMonth`: lower-case the token and look it up; failing that, look up
   * its first three characters (`slice(0, 3)`). An empty token resolves to nothing.
   */
  function ResolveMonth(text: string): (r: Option<int>)
    ensures r.Some? ==> 1 <= r.value <= 12
  {
    if text == [] then None
    else
      var lower := Lower(text);
      match Lookup(lower)
      case Some(m) => Some(m)
      case None => Lookup(lower[..if |lower| < 3 then |lower| else 3])
  }

  /**
   * A token resolves exactly when its first three letters, lower-cased, are a
   * stem of the table, and then to that stem's month: the rest of the token
   * never matters, because the table is prefix-closed with agreeing months.
   */
  lemma ResolveByStem(text: string)
    ensures ResolveMonth(text) == StemMonth(Lower(text))
  {
    var lower := Lower(text);
    if text != [] && Lookup(lower).None? {
      if |lower| >= 3 {
        StemLookup(lower);
      } else {
        assert lower[..|lower|] == lower;
      }
    }
  }

  /** The first three letters of a string are a key exactly when they are a stem, with the stem's month. */
  lemma StemLookup(k: string)
    requires |k| >= 3
    ensures Lookup(k[..3]) == StemMonth(k)
  {
    var p := k[..3];
    assert p[3..] == "";
    assert p[0] == k[0] && p[1] == k[1] && p[2] == k[2];
  }
}
