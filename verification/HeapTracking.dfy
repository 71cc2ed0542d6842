/**
 * How a heap that is never cleaned up relates to the data: stale entries stay
 * behind and are told apart by their version.
 */
module HeapTracking {
  import opened Bytes
  import opened StoreModel
  import opened MinHeaps

  /** The entry pushed for the latest access of an item (store.go:569-572). */
  function EntryFor(key: Str, item: Item): Entry {
    Entry(key, item.freq, item.lastAccess, item.accessId)
  }

  /** The freshness test of popLRU and popLFU (store.go:577, 587). */
  predicate Matches(e: Entry, data: Data) {
    e.key in data && data[e.key].accessId == e.version
  }

  /** The keys whose latest access is in the heap. */
  ghost function TrackedIn(h: multiset<Entry>, data: Data): set<Str> {
    set k | k in data && EntryFor(k, data[k]) in h
  }

  /**
   * Versions are handed out once and never exceed the counter, and an entry that
   * passes the freshness test is the latest access of its key.
   */
  ghost predicate Coherent(h: multiset<Entry>, data: Data, counter: int) {
    && (forall e :: e in h ==> e.version <= counter && h[e] == 1)
    && (forall e, f :: e in h && f in h && e.version == f.version ==> e == f)
    && (forall e :: e in h && Matches(e, data) ==> e == EntryFor(e.key, data[e.key]))
  }

  /** Storing an item under a new id and pushing it: exactly its key becomes tracked. */
  lemma TrackPush(h: multiset<Entry>, data: Data, counter: int, key: Str, item: Item)
    requires Coherent(h, data, counter) && item.accessId == counter + 1
    ensures var h' := h + multiset{EntryFor(key, item)};
      && Coherent(h', data[key := item], counter + 1)
      && TrackedIn(h', data[key := item]) == TrackedIn(h, data) + {key}
  {
  }

  lemma TrackRemove(h: multiset<Entry>, data: Data, counter: int, key: Str)
    requires Coherent(h, data, counter)
    ensures Coherent(h, data - {key}, counter)
    ensures TrackedIn(h, data - {key}) == TrackedIn(h, data) - {key}
  {
  }

  /** With no entry, or with no data, nothing is tracked. */
  lemma TrackNothing(h: multiset<Entry>, data: Data, counter: int)
    requires Coherent(h, data, counter)
    ensures TrackedIn(multiset{}, data) == {}
    ensures TrackedIn(h, map[]) == {} && Coherent(h, map[], counter)
  {
  }

  /** A popped entry that fails the freshness test was of no use. */
  lemma TrackPopStale(h: multiset<Entry>, data: Data, counter: int, e: Entry)
    requires Coherent(h + multiset{e}, data, counter) && !Matches(e, data)
    ensures Coherent(h, data, counter)
    ensures TrackedIn(h, data) == TrackedIn(h + multiset{e}, data)
  {
    assert forall x :: x in h ==> x in h + multiset{e};
  }

  /** A popped entry that passes it stands for a tracked key, which it untracks. */
  lemma TrackPopFresh(h: multiset<Entry>, data: Data, counter: int, e: Entry)
    requires Coherent(h + multiset{e}, data, counter) && Matches(e, data)
    ensures Coherent(h, data, counter)
    ensures e == EntryFor(e.key, data[e.key]) && e.key in TrackedIn(h + multiset{e}, data)
    ensures TrackedIn(h, data) == TrackedIn(h + multiset{e}, data) - {e.key}
  {
    assert e in h + multiset{e} && (h + multiset{e})[e] == 1;
    assert forall x :: x in h ==> x in h + multiset{e};
  }

  /** A minimal entry that is fresh belongs to a key that no tracked key ranks below. */
  lemma MinimalEntryMinimalKey(byFreq: bool, h: multiset<Entry>, data: Data, counter: int, e: Entry)
    requires Coherent(h, data, counter) && e in h && Matches(e, data)
    requires forall x :: x in h ==> !Less(byFreq, x, e)
    ensures forall k :: k in TrackedIn(h, data) ==>
      !RanksBelow(if byFreq then AllKeysLfu else AllKeysLru, data[k], data[e.key])
  {
    forall k | k in TrackedIn(h, data)
      ensures !RanksBelow(if byFreq then AllKeysLfu else AllKeysLru, data[k], data[e.key])
    {
      assert !Less(byFreq, EntryFor(k, data[k]), e);
    }
  }
}
