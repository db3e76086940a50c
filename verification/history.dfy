/** The search history: a duplicate-free list of past queries under the
    `searchHistory` key, read afresh before every change, appended to and
    cleared as a whole by the reset button. */
module SearchHistory {
  import opened DurableStore

  /** No query appears twice. */
  predicate NoDuplicates(qs: seq<string>) {
    forall i, j :: 0 <= i < j < |qs| ==> qs[i] != qs[j]
  }

  /** `JSON.parse(getItem('searchHistory')) || []`: the stored list, or the
      empty list when the key is missing. */
  function ReadHistory(s: Store): (qs: seq<string>)
    requires WellTyped(s)
    ensures HistoryKey in s ==> s[HistoryKey] == Strings(qs)
    ensures HistoryKey !in s ==> qs == []
  {
    if HistoryKey in s then s[HistoryKey].strings else []
  }

  /** `saveSearchHistory`: append the query and write the list back, unless
      it is already in the list, in which case nothing is written. */
  function SaveSearchHistory(s: Store, query: string): (r: Store)
    requires WellTyped(s)
    ensures WellTyped(r)
    ensures query in ReadHistory(s) ==> r == s
    ensures query !in ReadHistory(s) ==> ReadHistory(r) == ReadHistory(s) + [query]
    ensures forall k :: k != HistoryKey ==> Get(r, k) == Get(s, k)
  {
    var saved := ReadHistory(s);
    if query in saved then s else Put(s, HistoryKey, Strings(saved + [query]))
  }

  /** The part of `searchPodcast` that touches the history: a non-empty
      (already trimmed) query is saved, an empty one is not. */
  function SubmitSearch(s: Store, query: string): (r: Store)
    requires WellTyped(s)
    ensures WellTyped(r)
    ensures query == "" ==> r == s
    ensures query != "" ==> query in ReadHistory(r)
    ensures query in ReadHistory(s) ==> r == s
    ensures query != "" && query !in ReadHistory(s) ==> ReadHistory(r) == ReadHistory(s) + [query]
    ensures forall k :: k != HistoryKey ==> Get(r, k) == Get(s, k)
  {
    if query != "" then SaveSearchHistory(s, query) else s
  }

  /** The reset button removes the key and touches nothing else. */
  function ResetHistory(s: Store): (r: Store)
    requires WellTyped(s)
    ensures WellTyped(r)
    ensures HistoryKey !in r
    ensures forall k :: k != HistoryKey ==> Get(r, k) == Get(s, k)
  {
    Remove(s, HistoryKey)
  }

  /** After a reset, the next read yields the empty list. */
  lemma ResetThenReadIsEmpty(s: Store)
    requires WellTyped(s)
    ensures ReadHistory(ResetHistory(s)) == []
  {
  }

  /** Saving keeps the list duplicate-free, keeps every earlier query at its
      position, and leaves the query in the list. */
  lemma SaveKeepsHistoryInvariant(s: Store, query: string)
    requires WellTyped(s) && NoDuplicates(ReadHistory(s))
    ensures var after := ReadHistory(SaveSearchHistory(s, query));
      && NoDuplicates(after)
      && query in after
      && |ReadHistory(s)| <= |after| <= |ReadHistory(s)| + 1
      && after[..|ReadHistory(s)|] == ReadHistory(s)
  {
  }

  /** Saving is idempotent: a repeated search writes nothing. */
  lemma SaveIsIdempotent(s: Store, query: string)
    requires WellTyped(s)
    ensures SaveSearchHistory(SaveSearchHistory(s, query), query) == SaveSearchHistory(s, query)
  {
  }

  /** A run of searches keeps the history duplicate-free, and afterwards it
      holds exactly the earlier queries and the non-empty searched ones. */
  function SearchAll(s: Store, queries: seq<string>): (r: Store)
    requires WellTyped(s)
    ensures WellTyped(r)
    ensures NoDuplicates(ReadHistory(s)) ==> NoDuplicates(ReadHistory(r))
    ensures forall q :: q in ReadHistory(r) <==> q in ReadHistory(s) || (q in queries && q != "")
    decreases |queries|
  {
    if |queries| == 0 then s
    else
      var s' := SubmitSearch(s, queries[0]);
      SaveKeepsNoDuplicates(s, queries[0]);
      assert forall q :: q in queries <==> q == queries[0] || q in queries[1..];
      SearchAll(s', queries[1..])
  }

  lemma SaveKeepsNoDuplicates(s: Store, query: string)
    requires WellTyped(s)
    ensures NoDuplicates(ReadHistory(s)) ==> NoDuplicates(ReadHistory(SubmitSearch(s, query)))
    ensures forall q :: q in ReadHistory(SubmitSearch(s, query)) <==> q in ReadHistory(s) || (q == query && q != "")
  {
  }
}
