/**
 * The per-page stores of the pages (`{ ...prev, [key]: value }`): a write
 * sets one key and leaves every other key as it was.
 */
module PageStore {

  /** `{ ...prev, [key]: value }`. */
  function Store<V>(prev: map<int, V>, key: int, value: V): (next: map<int, V>)
    ensures next.Keys == prev.Keys + {key}
    ensures next[key] == value
    ensures forall k :: k in prev && k != key ==> next[k] == prev[k]
  {
    prev[key := value]
  }

  /** Last write wins: a second write to the same key hides the first. */
  lemma StoreTwice<V>(prev: map<int, V>, key: int, first: V, second: V)
    ensures Store(Store(prev, key, first), key, second) == Store(prev, key, second)
  {
  }

  /** Writes to different keys commute. */
  lemma StoreCommutes<V>(prev: map<int, V>, k1: int, v1: V, k2: int, v2: V)
    requires k1 != k2
    ensures Store(Store(prev, k1, v1), k2, v2) == Store(Store(prev, k2, v2), k1, v1)
  {
  }
}
