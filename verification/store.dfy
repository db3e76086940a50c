/** The browser's local storage, as the player uses it: three keys holding
    JSON values. Serialisation is modelled as storing the structured value
    itself, so a write followed by a read returns what was written. */
module DurableStore {
  import opened Opt
  import opened Media

  const QueueKey: string := "queue"
  const HistoryKey: string := "searchHistory"
  const PlayerStateKey: string := "playerState"

  /** The JSON values the script ever writes. */
  datatype Value =
    | Episodes(episodes: seq<Episode>)
    | Strings(strings: seq<string>)
    | State(snapshot: Snapshot)

  type Store = map<string, Value>

  /** Every key the script owns holds the kind of value the script writes there. */
  predicate WellTyped(s: Store) {
    && (QueueKey in s ==> s[QueueKey].Episodes?)
    && (HistoryKey in s ==> s[HistoryKey].Strings?)
    && (PlayerStateKey in s ==> s[PlayerStateKey].State?)
  }

  /** `getItem`: the value under `k`, or nothing. */
  function Get(s: Store, k: string): (r: Option<Value>)
    ensures r.Some? <==> k in s
    ensures r.Some? ==> r.value == s[k]
  {
    if k in s then Some(s[k]) else None
  }

  /** `setItem`: `k` now holds `v`; every other key is untouched. */
  function Put(s: Store, k: string, v: Value): (r: Store)
    ensures Get(r, k) == Some(v)
    ensures forall k' :: k' != k ==> Get(r, k') == Get(s, k')
  {
    s[k := v]
  }

  /** `removeItem`: `k` is gone; every other key is untouched. */
  function Remove(s: Store, k: string): (r: Store)
    ensures Get(r, k) == None
    ensures forall k' :: k' != k ==> Get(r, k') == Get(s, k')
  {
    s - {k}
  }

  /** Writing a key its own kind of value keeps the store well typed. */
  lemma PutKeepsWellTyped(s: Store, k: string, v: Value)
    requires WellTyped(s)
    requires k == QueueKey ==> v.Episodes?
    requires k == HistoryKey ==> v.Strings?
    requires k == PlayerStateKey ==> v.State?
    ensures WellTyped(Put(s, k, v))
  {
  }
}
