/** The single-file matcher: repeated `indexOf(query, index + 1)` over one
    file's text, which visits every occurrence of a literal query. */
module Matcher {
  import opened Utf16

  /** `query` occurs in `text` as a contiguous substring starting at offset `i`. */
  predicate MatchesAt(text: Text, query: Text, i: int) {
    0 <= i && i + |query| <= |text| && text[i..i + |query|] == query
  }

  /** `String.indexOf(query, from)` as the JVM defines it: the least offset
      `i >= from` at which `query` occurs, or -1 when there is none. A negative
      `from` searches from 0; an empty query is found at `from` clamped to
      `[0, |text|]`. */
  function IndexOf(text: Text, query: Text, from: int): (r: int)
    ensures query == [] ==> r == (if from < 0 then 0 else if from > |text| then |text| else from)
    ensures query != [] ==> -1 <= r
    ensures query != [] && r >= 0 ==>
      from <= r && MatchesAt(text, query, r) &&
      forall i :: from <= i < r ==> !MatchesAt(text, query, i)
    ensures query != [] && r == -1 ==>
      forall i :: from <= i ==> !MatchesAt(text, query, i)
    decreases |text| - from
  {
    if from < 0 then IndexOf(text, query, 0)
    else if from + |query| > |text| then (if query == [] then |text| else -1)
    else if MatchesAt(text, query, from) then from
    else IndexOf(text, query, from + 1)
  }

  /** Brute-force reference: every offset `i >= from` at which `query` occurs,
      in increasing order, overlapping occurrences included. */
  ghost function Occurrences(text: Text, query: Text, from: nat): (r: seq<nat>)
    ensures forall k :: 0 <= k < |r| ==> from <= r[k] && r[k] + |query| <= |text|
    decreases |text| - from
  {
    if from + |query| > |text| then []
    else (if MatchesAt(text, query, from) then [from] else []) + Occurrences(text, query, from + 1)
  }

  /** The listing is exhaustive: an offset is listed exactly when the query
      occurs there. */
  lemma {:induction false} OccurrencesExact(text: Text, query: Text, from: nat, x: int)
    ensures x in Occurrences(text, query, from) <==> from <= x && MatchesAt(text, query, x)
    decreases |text| - from
  {
    if from + |query| <= |text| {
      OccurrencesExact(text, query, from + 1, x);
    }
  }

  /** The listing is in strictly increasing offset order. */
  lemma {:induction false} OccurrencesIncreasing(text: Text, query: Text, from: nat)
    ensures forall j, k :: 0 <= j < k < |Occurrences(text, query, from)| ==>
      Occurrences(text, query, from)[j] < Occurrences(text, query, from)[k]
    decreases |text| - from
  {
    if from + |query| <= |text| {
      OccurrencesIncreasing(text, query, from + 1);
    }
  }

  /** One step of the match loop: `IndexOf` from `from` yields the head of the
      remaining occurrences, or -1 exactly when none remain. */
  lemma {:induction false} IndexOfFirstOccurrence(text: Text, query: Text, from: nat)
    requires query != []
    ensures IndexOf(text, query, from) == -1 ==> Occurrences(text, query, from) == []
    ensures IndexOf(text, query, from) >= 0 ==>
      Occurrences(text, query, from) ==
        [IndexOf(text, query, from)] + Occurrences(text, query, IndexOf(text, query, from) + 1)
    decreases |text| - from
  {
    if from + |query| <= |text| && !MatchesAt(text, query, from) {
      IndexOfFirstOccurrence(text, query, from + 1);
    }
  }

  /** An empty query never moves past the end of the text, so the match loop
      would not terminate on it; this is why a search needs a non-empty query. */
  lemma EmptyQueryStalls(text: Text)
    ensures IndexOf(text, [], |text| + 1) == |text|
  {
  }
}
