/** Leftmost-position search, the part of an unanchored regular expression that picks where the match starts. */
module Search {
  import opened Wrappers

  /** The first position `p` in `from..n` with `at(p)`, scanning left to right. */
  function FirstWhere(n: nat, at: nat -> bool, from: nat): (r: Option<nat>)
    ensures r.Some? ==> from <= r.value <= n && at(r.value)
    ensures r.Some? ==> forall p :: from <= p < r.value ==> !at(p)
    ensures r.None? ==> forall p :: from <= p <= n ==> !at(p)
    decreases n + 1 - from
  {
    if from > n then None
    else if at(from) then Some(from)
    else FirstWhere(n, at, from + 1)
  }
}
