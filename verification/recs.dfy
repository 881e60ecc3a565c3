/**
 * The two pure sequence steps of the recommender: the tag pipeline
 * (collect, trim, lower-case, drop empties, keep first occurrences, at most
 * twenty) and the loop that drops candidates with a repeated `title|start`
 * key and stops at the limit.
 */
module Recs {
  import opened Wrappers
  import opened Text

  // ---------------------------------------------------------------------
  // First occurrences by key: `new Set(...)` and the `seen` loop.
  // ---------------------------------------------------------------------

  /** No two elements of `s` share a key. */
  predicate DistinctKeys<T, K(==)>(s: seq<T>, key: T -> K) {
    forall i, j :: 0 <= i < j < |s| ==> key(s[i]) != key(s[j])
  }

  /** The keys of the elements of `s`. */
  function KeySet<T, K(==)>(s: seq<T>, key: T -> K): set<K> {
    set i | 0 <= i < |s| :: key(s[i])
  }

  /**
   * Walks `s` left to right and keeps an element when its key is neither in
   * `seen` nor the key of an element kept before it.
   */
  function FirstByKey<T, K(==)>(s: seq<T>, key: T -> K, seen: set<K>): (r: seq<T>)
    ensures |r| <= |s|
    ensures DistinctKeys(r, key)
    ensures KeySet(r, key) == KeySet(s, key) - seen
    decreases |s|
  {
    if s == [] then []
    else
      KeySetCons(s, key);
      var rest := FirstByKey(s[1..], key, seen + {key(s[0])});
      if key(s[0]) in seen then FirstByKey(s[1..], key, seen)
      else
        KeySetCons([s[0]] + rest, key);
        assert ([s[0]] + rest)[1..] == rest;
        [s[0]] + rest
  }

  lemma KeySetCons<T, K>(s: seq<T>, key: T -> K)
    requires s != []
    ensures KeySet(s, key) == {key(s[0])} + KeySet(s[1..], key)
  {
    forall k | k in KeySet(s, key) ensures k in {key(s[0])} + KeySet(s[1..], key) {
      var i :| 0 <= i < |s| && key(s[i]) == k;
      if i > 0 {
        assert s[1..][i - 1] == s[i];
      }
    }
    forall k | k in KeySet(s[1..], key) ensures k in KeySet(s, key) {
      var i :| 0 <= i < |s[1..]| && key(s[1..][i]) == k;
      assert s[i + 1] == s[1..][i];
    }
  }

  lemma KeySetAppend<T, K>(a: seq<T>, b: seq<T>, key: T -> K)
    ensures KeySet(a + b, key) == KeySet(a, key) + KeySet(b, key)
  {
    forall k | k in KeySet(a + b, key) ensures k in KeySet(a, key) + KeySet(b, key) {
      var i :| 0 <= i < |a + b| && key((a + b)[i]) == k;
      if i >= |a| {
        assert (a + b)[i] == b[i - |a|];
      }
    }
    forall k | k in KeySet(b, key) ensures k in KeySet(a + b, key) {
      var i :| 0 <= i < |b| && key(b[i]) == k;
      assert (a + b)[|a| + i] == b[i];
    }
    forall k | k in KeySet(a, key) ensures k in KeySet(a + b, key) {
      var i :| 0 <= i < |a| && key(a[i]) == k;
      assert (a + b)[i] == a[i];
    }
  }

  /** Deduplicating `a + b` deduplicates `a`, then `b` against every key `a` had. */
  lemma {:induction false} FirstByKeyAppend<T, K>(a: seq<T>, b: seq<T>, key: T -> K, seen: set<K>)
    ensures FirstByKey(a + b, key, seen) == FirstByKey(a, key, seen) + FirstByKey(b, key, seen + KeySet(a, key))
    decreases |a|
  {
    if a == [] {
      assert a + b == b;
      assert KeySet(a, key) == {};
      assert seen + KeySet(a, key) == seen;
    } else {
      var k0 := key(a[0]);
      assert (a + b)[0] == a[0];
      assert (a + b)[1..] == a[1..] + b;
      KeySetCons(a, key);
      if k0 in seen {
        FirstByKeyAppend(a[1..], b, key, seen);
        assert seen + KeySet(a[1..], key) == seen + KeySet(a, key);
      } else {
        FirstByKeyAppend(a[1..], b, key, seen + {k0});
        assert seen + {k0} + KeySet(a[1..], key) == seen + KeySet(a, key);
      }
    }
  }

  /** Position `j` holds the first element of `s` with its key, and that key is not in `seen`. */
  ghost predicate FirstAt<T, K>(s: seq<T>, j: nat, key: T -> K, seen: set<K>)
    requires j < |s|
  {
    key(s[j]) !in seen && forall i :: 0 <= i < j ==> key(s[i]) != key(s[j])
  }

  /** `r` is `s` read at the positions `idx`, each a first occurrence. */
  ghost predicate ReadsFirsts<T, K>(s: seq<T>, r: seq<T>, key: T -> K, seen: set<K>, idx: seq<nat>) {
    |idx| == |r| && forall k :: 0 <= k < |idx| ==> idx[k] < |s| && r[k] == s[idx[k]] && FirstAt(s, idx[k], key, seen)
  }

  ghost predicate Increasing(idx: seq<nat>) {
    forall k :: 0 < k < |idx| ==> idx[k - 1] < idx[k]
  }

  /** Every first occurrence in `s` is among the positions `idx`. */
  ghost predicate CoversFirsts<T, K>(s: seq<T>, key: T -> K, seen: set<K>, idx: seq<nat>) {
    forall j :: 0 <= j < |s| && FirstAt(s, j, key, seen) ==> j in idx
  }

  /**
   * `r` is the subsequence of `s` at the strictly increasing positions `idx`,
   * and those positions are exactly the first occurrences of keys outside `seen`.
   */
  ghost predicate PicksFirsts<T, K>(s: seq<T>, r: seq<T>, key: T -> K, seen: set<K>, idx: seq<nat>) {
    ReadsFirsts(s, r, key, seen, idx) && Increasing(idx) && CoversFirsts(s, key, seen, idx)
  }

  function Shift(idx: seq<nat>): (r: seq<nat>)
    ensures |r| == |idx| && forall k :: 0 <= k < |idx| ==> r[k] == idx[k] + 1
  {
    seq(|idx|, k requires 0 <= k < |idx| => idx[k] + 1)
  }

  /** The positions `FirstByKey` keeps, in order. */
  function FirstPositions<T, K(==)>(s: seq<T>, key: T -> K, seen: set<K>): seq<nat>
    decreases |s|
  {
    if s == [] then []
    else if key(s[0]) in seen then Shift(FirstPositions(s[1..], key, seen))
    else [0] + Shift(FirstPositions(s[1..], key, seen + {key(s[0])}))
  }

  /** A later position is a first occurrence in `s` exactly when it is one in `s[1..]` with `s[0]`'s key seen. */
  lemma FirstAtTail<T, K>(s: seq<T>, j: nat, key: T -> K, seen: set<K>)
    requires 0 < j < |s|
    ensures FirstAt(s, j, key, seen) <==> FirstAt(s[1..], j - 1, key, seen + {key(s[0])})
  {
    if FirstAt(s[1..], j - 1, key, seen + {key(s[0])}) {
      forall i | 0 <= i < j ensures key(s[i]) != key(s[j]) {
        if i > 0 {
          assert s[i] == s[1..][i - 1];
        }
      }
    }
    if FirstAt(s, j, key, seen) {
      forall i | 0 <= i < j - 1 ensures key(s[1..][i]) != key(s[1..][j - 1]) {
        assert s[1..][i] == s[i + 1];
      }
    }
  }

  /**
   * The output of `FirstByKey` is the subsequence of `s` made of the first
   * occurrence of every key outside `seen`, in the order they occur.
   */
  lemma {:induction false} FirstByKeyPicksFirsts<T, K>(s: seq<T>, key: T -> K, seen: set<K>)
    ensures PicksFirsts(s, FirstByKey(s, key, seen), key, seen, FirstPositions(s, key, seen))
    decreases |s|
  {
    if s != [] {
      var k0 := key(s[0]);
      var t := s[1..];
      var seen' := seen + {k0};
      if k0 in seen {
        assert seen' == seen;
        FirstByKeyPicksFirsts(t, key, seen);
        var sub := FirstPositions(t, key, seen);
        assert FirstPositions(s, key, seen) == Shift(sub);
        assert FirstByKey(s, key, seen) == FirstByKey(t, key, seen);
        SkipReads(s, FirstByKey(t, key, seen), key, seen, sub);
        SkipCovers(s, key, seen, sub);
      } else {
        FirstByKeyPicksFirsts(t, key, seen');
        var sub := FirstPositions(t, key, seen');
        assert FirstPositions(s, key, seen) == [0] + Shift(sub);
        assert FirstByKey(s, key, seen) == [s[0]] + FirstByKey(t, key, seen');
        KeepReads(s, FirstByKey(t, key, seen'), key, seen, sub);
        KeepCovers(s, key, seen, sub);
      }
    }
  }

  lemma SkipReads<T, K>(s: seq<T>, rt: seq<T>, key: T -> K, seen: set<K>, sub: seq<nat>)
    requires s != [] && key(s[0]) in seen
    requires ReadsFirsts(s[1..], rt, key, seen, sub) && Increasing(sub)
    ensures ReadsFirsts(s, rt, key, seen, Shift(sub)) && Increasing(Shift(sub))
  {
    var idx := Shift(sub);
    forall k | 0 <= k < |idx| ensures idx[k] < |s| && rt[k] == s[idx[k]] && FirstAt(s, idx[k], key, seen) {
      assert s[1..][sub[k]] == s[idx[k]];
      FirstAtTail(s, idx[k], key, seen);
      assert seen + {key(s[0])} == seen;
    }
  }

  lemma SkipCovers<T, K>(s: seq<T>, key: T -> K, seen: set<K>, sub: seq<nat>)
    requires s != [] && key(s[0]) in seen
    requires CoversFirsts(s[1..], key, seen, sub)
    ensures CoversFirsts(s, key, seen, Shift(sub))
  {
    forall j | 0 <= j < |s| && FirstAt(s, j, key, seen) ensures j in Shift(sub) {
      assert j != 0;
      FirstAtTail(s, j, key, seen);
      assert seen + {key(s[0])} == seen;
      ShiftHas(sub, j);
    }
  }

  lemma KeepReads<T, K>(s: seq<T>, rt: seq<T>, key: T -> K, seen: set<K>, sub: seq<nat>)
    requires s != [] && key(s[0]) !in seen
    requires ReadsFirsts(s[1..], rt, key, seen + {key(s[0])}, sub) && Increasing(sub)
    ensures ReadsFirsts(s, [s[0]] + rt, key, seen, [0] + Shift(sub)) && Increasing([0] + Shift(sub))
  {
    var idx := [0] + Shift(sub);
    var r := [s[0]] + rt;
    forall k | 0 <= k < |idx| ensures idx[k] < |s| && r[k] == s[idx[k]] && FirstAt(s, idx[k], key, seen) {
      if k == 0 {
        assert FirstAt(s, 0, key, seen);
      } else {
        assert idx[k] == sub[k - 1] + 1 && r[k] == rt[k - 1];
        assert s[1..][sub[k - 1]] == s[idx[k]];
        FirstAtTail(s, idx[k], key, seen);
      }
    }
    forall k | 0 < k < |idx| ensures idx[k - 1] < idx[k] {
      assert idx[k] == sub[k - 1] + 1;
    }
  }

  lemma KeepCovers<T, K>(s: seq<T>, key: T -> K, seen: set<K>, sub: seq<nat>)
    requires s != [] && key(s[0]) !in seen
    requires CoversFirsts(s[1..], key, seen + {key(s[0])}, sub)
    ensures CoversFirsts(s, key, seen, [0] + Shift(sub))
  {
    forall j | 0 <= j < |s| && FirstAt(s, j, key, seen) ensures j in [0] + Shift(sub) {
      if j == 0 {
        assert ([0] + Shift(sub))[0] == 0;
      } else {
        FirstAtTail(s, j, key, seen);
        ShiftHas(sub, j);
      }
    }
  }

  lemma ShiftHas(sub: seq<nat>, j: nat)
    requires j > 0 && j - 1 in sub
    ensures j in Shift(sub) && j in [0] + Shift(sub)
  {
    var k :| 0 <= k < |sub| && sub[k] == j - 1;
    assert Shift(sub)[k] == j;
    assert ([0] + Shift(sub))[k + 1] == j;
  }

  /** The first `n` elements, or all of them when there are fewer (`slice(0, n)`). */
  function Take<T>(s: seq<T>, n: nat): (r: seq<T>)
    ensures |r| <= n && |r| <= |s|
    ensures |r| < n ==> r == s
    ensures forall i :: 0 <= i < |r| ==> r[i] == s[i]
  {
    if n <= |s| then s[..n] else s
  }

  /** A prefix of a keyed-distinct sequence is keyed-distinct. */
  lemma TakeDistinct<T, K>(s: seq<T>, n: nat, key: T -> K)
    requires DistinctKeys(s, key)
    ensures DistinctKeys(Take(s, n), key)
  {
  }

  // ---------------------------------------------------------------------
  // The tag pipeline.
  // ---------------------------------------------------------------------

  /** What the taste expansion returned; each list may be missing (`expanded.music || []`). */
  datatype Expanded = Expanded(
    music: Option<seq<Option<string>>>,
    art: Option<seq<Option<string>>>,
    cinema: Option<seq<Option<string>>>,
    food: Option<seq<Option<string>>>,
    sports: Option<seq<Option<string>>>)

  /** The lists spread in the order music, art, cinema, food, sports. */
  function AllTags(e: Expanded): seq<Option<string>> {
    e.music.GetOr([]) + e.art.GetOr([]) + e.cinema.GetOr([]) + e.food.GetOr([]) + e.sports.GetOr([])
  }

  /** `String(tag || '').trim().toLowerCase()`; a missing tag becomes the empty string. */
  function NormalizeTag(tag: Option<string>): string {
    Lower(Trim(tag.GetOr("")))
  }

  /** `.map(normalizeTag).filter(Boolean)`. */
  function NormalizeTags(tags: seq<Option<string>>): (r: seq<string>)
    ensures |r| <= |tags|
    ensures forall i :: 0 <= i < |r| ==> r[i] != ""
  {
    if tags == [] then []
    else
      var n := NormalizeTag(tags[0]);
      if n == "" then NormalizeTags(tags[1..]) else [n] + NormalizeTags(tags[1..])
  }

  /** The kept tags are exactly the non-empty normalisations of the input tags. */
  lemma {:induction false} NormalizeTagsMembers(tags: seq<Option<string>>)
    ensures forall t :: t in tags && NormalizeTag(t) != "" ==> NormalizeTag(t) in NormalizeTags(tags)
    ensures forall x :: x in NormalizeTags(tags) ==> exists t :: t in tags && NormalizeTag(t) == x
    decreases |tags|
  {
    if tags != [] {
      var rest := tags[1..];
      NormalizeTagsMembers(rest);
      forall t | t in tags && NormalizeTag(t) != "" ensures NormalizeTag(t) in NormalizeTags(tags) {
        if t != tags[0] {
          assert t in rest;
        }
      }
      forall x | x in NormalizeTags(tags) ensures exists t :: t in tags && NormalizeTag(t) == x {
        if x != NormalizeTag(tags[0]) {
          assert x in NormalizeTags(rest);
          var t :| t in rest && NormalizeTag(t) == x;
          assert t in tags;
        }
      }
    }
  }

  /** Normalising distributes over concatenation: order across the spread lists is kept. */
  lemma {:induction false} NormalizeTagsAppend(a: seq<Option<string>>, b: seq<Option<string>>)
    ensures NormalizeTags(a + b) == NormalizeTags(a) + NormalizeTags(b)
    decreases |a|
  {
    if a == [] {
      assert a + b == b;
    } else {
      assert (a + b)[0] == a[0];
      assert (a + b)[1..] == a[1..] + b;
      NormalizeTagsAppend(a[1..], b);
    }
  }

  /** A normalised tag is its own normalisation. */
  lemma NormalizeTagIdempotent(tag: Option<string>)
    ensures NormalizeTag(Some(NormalizeTag(tag))) == NormalizeTag(tag)
  {
    var t := Trim(tag.GetOr(""));
    TrimSpec(tag.GetOr(""));
    var l := Lower(t);
    TrimNoop(l);
    LowerIdempotent(t);
  }

  /** The identity, as the key of a string in `new Set(tags)`. */
  function Itself(s: string): string {
    s
  }

  /** `[...new Set(tags)].slice(0, 20)`. */
  function UniqueTags(tags: seq<string>): (r: seq<string>)
    ensures |r| <= 20
    ensures forall i, j :: 0 <= i < j < |r| ==> r[i] != r[j]
    ensures forall i :: 0 <= i < |r| ==> r[i] in tags
    ensures |r| < 20 ==> forall t :: t in tags ==> t in r
  {
    var u := FirstByKey(tags, Itself, {});
    FirstByKeyItself(tags);
    Take(u, 20)
  }

  /** With the identity as key, first occurrences are distinct and cover every element. */
  lemma FirstByKeyItself(tags: seq<string>)
    ensures var u := FirstByKey(tags, Itself, {});
      && (forall i, j :: 0 <= i < j < |u| ==> u[i] != u[j])
      && (forall x :: x in u <==> x in tags)
  {
    var u := FirstByKey(tags, Itself, {});
    forall i, j | 0 <= i < j < |u| ensures u[i] != u[j] {
      assert Itself(u[i]) != Itself(u[j]);
    }
    InKeySetItself(u);
    InKeySetItself(tags);
    assert KeySet(u, Itself) == KeySet(tags, Itself) - {};
  }

  lemma InKeySetItself(s: seq<string>)
    ensures forall x :: x in KeySet(s, Itself) <==> x in s
  {
    forall x | x in KeySet(s, Itself) ensures x in s {
      var i :| 0 <= i < |s| && Itself(s[i]) == x;
    }
    forall x | x in s ensures x in KeySet(s, Itself) {
      var i :| 0 <= i < |s| && s[i] == x;
      assert Itself(s[i]) == x;
    }
  }

  /** The tags handed to the search: collected, normalised, deduplicated and capped. */
  function SearchTags(e: Expanded): (r: seq<string>)
    ensures |r| <= 20
    ensures forall i, j :: 0 <= i < j < |r| ==> r[i] != r[j]
    ensures forall i :: 0 <= i < |r| ==> r[i] != "" && exists t :: t in AllTags(e) && NormalizeTag(t) == r[i]
  {
    NormalizeTagsMembers(AllTags(e));
    UniqueTags(NormalizeTags(AllTags(e)))
  }

  /** The unique tags keep first occurrences in order: they are the prefix of the positions `FirstPositions` picks. */
  lemma UniqueTagsFirstOccurrences(tags: seq<string>)
    ensures var r := UniqueTags(tags); var idx := FirstPositions(tags, Itself, {});
      && |r| <= |idx|
      && (forall k :: 0 <= k < |r| ==> idx[k] < |tags| && r[k] == tags[idx[k]])
      && (forall k :: 0 <= k < |r| ==> forall i :: 0 <= i < idx[k] ==> tags[i] != r[k])
      && (forall k :: 0 < k < |r| ==> idx[k - 1] < idx[k])
  {
    FirstByKeyPicksFirsts(tags, Itself, {});
  }

  // ---------------------------------------------------------------------
  // The dedup-with-limit loop of `recommendForUser`.
  // ---------------------------------------------------------------------

  /** A search result; only the fields of its key matter here, the rest is its id. */
  datatype Candidate = Candidate(title: Option<string>, start: Option<string>, id: string)

  /** `${candidate.title || ''}|${candidate.start || ''}` */
  function Key(c: Candidate): string {
    c.title.GetOr("") + "|" + c.start.GetOr("")
  }

  /** The loop pushes before it tests `items.length >= limit`, so it keeps at least one item. */
  function Cap(limit: int): nat {
    if limit >= 1 then limit else 1
  }

  /**
   * The loop over the sorted results: skip a candidate whose key was seen,
   * otherwise keep it, and stop once `limit` items are kept.
   */
  method DedupWithLimit(results: seq<Candidate>, limit: int) returns (items: seq<Candidate>)
    ensures items == Take(FirstByKey(results, Key, {}), Cap(limit))
    ensures DistinctKeys(items, Key)
    ensures |items| <= Cap(limit)
    ensures |items| < Cap(limit) ==> KeySet(items, Key) == KeySet(results, Key)
  {
    var seen: set<string> := {};
    items := [];
    var i := 0;
    while i < |results|
      invariant 0 <= i <= |results|
      invariant items == FirstByKey(results[..i], Key, {})
      invariant seen == KeySet(results[..i], Key)
      invariant |items| < Cap(limit)
    {
      var c := results[i];
      var k := Key(c);
      PrefixStep(results, i);
      if k !in seen {
        seen := seen + {k};
        items := items + [c];
        if |items| >= limit {
          StopsAtCap(results, i + 1, limit);
          return;
        }
      }
      i := i + 1;
    }
    assert results[..i] == results;
    RunsOut(results, limit);
  }

  /** Stopping after `j` candidates once the cap is reached yields the capped first occurrences. */
  lemma StopsAtCap(results: seq<Candidate>, j: nat, limit: int)
    requires 0 < j <= |results|
    requires var p := FirstByKey(results[..j], Key, {}); |p| >= limit && |p| <= Cap(limit)
    ensures var p := FirstByKey(results[..j], Key, {});
      && p == Take(FirstByKey(results, Key, {}), Cap(limit))
      && DistinctKeys(p, Key)
      && |p| <= Cap(limit)
      && (|p| < Cap(limit) ==> KeySet(p, Key) == KeySet(results, Key))
  {
    PrefixIsTaken(results, j);
  }

  /** Running through every candidate below the cap yields all first occurrences. */
  lemma RunsOut(results: seq<Candidate>, limit: int)
    requires |FirstByKey(results, Key, {})| < Cap(limit)
    ensures var p := FirstByKey(results, Key, {});
      && p == Take(FirstByKey(results, Key, {}), Cap(limit))
      && DistinctKeys(p, Key)
      && (KeySet(p, Key) == KeySet(results, Key))
  {
  }

  /** One more candidate: it is kept exactly when its key is new. */
  lemma PrefixStep(results: seq<Candidate>, i: nat)
    requires i < |results|
    ensures Key(results[i]) in KeySet(results[..i], Key) ==>
      FirstByKey(results[..i + 1], Key, {}) == FirstByKey(results[..i], Key, {})
    ensures Key(results[i]) !in KeySet(results[..i], Key) ==>
      FirstByKey(results[..i + 1], Key, {}) == FirstByKey(results[..i], Key, {}) + [results[i]]
    ensures KeySet(results[..i + 1], Key) == KeySet(results[..i], Key) + {Key(results[i])}
  {
    var pre, c := results[..i], results[i];
    assert results[..i + 1] == pre + [c];
    FirstByKeyAppend(pre, [c], Key, {});
    KeySetAppend(pre, [c], Key);
    assert KeySet([c], Key) == {Key(c)};
    var none: set<string> := {};
    assert none + KeySet(pre, Key) == KeySet(pre, Key);
    assert FirstByKey(pre, Key, {}) + [] == FirstByKey(pre, Key, {});
  }

  /** What a prefix of the results yields is the start of what all of them yield. */
  lemma PrefixIsTaken(results: seq<Candidate>, j: nat)
    requires j <= |results|
    ensures var p := FirstByKey(results[..j], Key, {});
      p == Take(FirstByKey(results, Key, {}), |p|)
  {
    assert results == results[..j] + results[j..];
    FirstByKeyAppend(results[..j], results[j..], Key, {});
    var p := FirstByKey(results[..j], Key, {});
    var all := FirstByKey(results, Key, {});
    assert all[..|p|] == p;
  }

  /** Keys seen once more later add nothing: duplicating the results changes nothing. */
  lemma DedupIgnoresRepeats(results: seq<Candidate>)
    ensures FirstByKey(results + results, Key, {}) == FirstByKey(results, Key, {})
  {
    FirstByKeyAppend(results, results, Key, {});
    var none: set<string> := {};
    assert none + KeySet(results, Key) == KeySet(results, Key);
    FirstByKeyAllSeen(results, Key, KeySet(results, Key));
    assert FirstByKey(results, Key, {}) + [] == FirstByKey(results, Key, {});
  }

  /** Nothing survives when every key is already seen. */
  lemma {:induction false} FirstByKeyAllSeen<T, K>(s: seq<T>, key: T -> K, seen: set<K>)
    requires KeySet(s, key) <= seen
    ensures FirstByKey(s, key, seen) == []
    decreases |s|
  {
    if s != [] {
      KeySetCons(s, key);
      FirstByKeyAllSeen(s[1..], key, seen);
    }
  }
}
