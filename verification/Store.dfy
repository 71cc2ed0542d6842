/**
 * The store as the source builds it (pkg/store/store.go): a map, a byte counter,
 * a ring of non-expiring keys and two heaps with stale entries, all updated in
 * place. Each operation is proved to be a step of `StoreModel` on `Abs()`.
 *
 * Locks are not part of this class: every method is one critical section.
 */
module Stores {
  import opened Bytes
  import opened Lists
  import opened FifoRing
  import opened MinHeaps
  import opened StoreModel
  import opened StoreFacts
  import opened StoreInvariant
  import opened StoreEviction
  import opened HeapTracking

  /** On a queue without duplicates, dropping the first occurrence drops the key. */
  lemma {:induction false} RemoveFirstIsWithout(q: seq<Str>, key: Str)
    requires NoDuplicates(q)
    ensures RemoveFirst(q, key) == Without(q, {key})
  {
    if q != [] {
      if q[0] == key {
        WithoutDisjoint(q[1..], {key});
      } else {
        RemoveFirstIsWithout(q[1..], key);
      }
    }
  }

  /** What taking `key` off the queue does, whether or not it is there. */
  lemma QueueForget(data: Data, q: seq<Str>, key: Str)
    requires QueueInv(data, q)
    ensures RemoveFirst(q, key) == Without(q, {key})
    ensures key !in data || data[key].expiresAt != 0 ==> Without(q, {key}) == q
    ensures RemoveFirst(Without(q, {key}), key) == Without(q, {key})
    ensures QueueInv(data - {key}, Without(q, {key}))
  {
    RemoveFirstIsWithout(q, key);
    WithoutMember(q, {key});
    WithoutNoDuplicates(q, {key});
    RemoveAbsent(Without(q, {key}), key);
    if key !in data || data[key].expiresAt != 0 {
      WithoutDisjoint(q, {key});
    }
  }

  /** Deleting the popped key is deleting the oldest key. */
  lemma PoppedFifo(s: State)
    requires QueueInv(s.data, s.fifo) && s.fifo != []
    ensures Candidate(NoEviction, s, s.fifo[0])
    ensures QueueInv(s.data, s.fifo[1..])
    ensures Removed(s.(fifo := s.fifo[1..]), {s.fifo[0]}) == Removed(s, {s.fifo[0]})
  {
    WithoutHead(s.fifo);
    WithoutDisjoint(s.fifo[1..], {s.fifo[0]});
    assert forall k :: k in s.fifo[1..] ==> k in s.fifo;
  }

  lemma RemovedUntracked(p: Policy, s: State, key: Str)
    ensures Removed(Untracked(p, s, key), {key}) == Removed(s, {key})
  {
  }

  /** After `count` sampled keys: `unseen` are still to come, `gone` were overdue. */
  ghost predicate Sampling(data: Data, unseen: set<Str>, gone: set<Str>, expired: nat, count: nat, now: int) {
    && unseen <= data.Keys && gone !! unseen && |unseen| == |data| - count
    && gone <= OverdueKeys(data, now) && |gone| == expired <= count <= SAMPLE_SIZE
    && forall k :: k in data && k !in gone && k !in unseen ==> !Overdue(data[k].expiresAt, now)
  }

  /** The state after the keys in `gone` have expired, `n` of them counted. */
  ghost function Expunged(s: State, gone: set<Str>, n: nat): (r: State)
    ensures r.data == s.data - gone
  {
    Removed(s, gone).(expired := s.expired + n)
  }

  lemma ExpungedNone(s: State)
    ensures Expunged(s, {}, 0) == s
  {
    RemovedNothing(s);
  }

  lemma SampleStart(data: Data, now: int)
    ensures Sampling(data, data.Keys, {}, 0, 0, now)
  {
  }

  lemma SampleStep(data: Data, unseen: set<Str>, gone: set<Str>, expired: nat, count: nat, key: Str, now: int)
    requires Sampling(data, unseen, gone, expired, count, now) && key in unseen && count < SAMPLE_SIZE
    ensures key in data && key !in gone
    ensures if Overdue(data[key].expiresAt, now)
      then Sampling(data, unseen - {key}, gone + {key}, expired + 1, count + 1, now)
      else Sampling(data, unseen - {key}, gone, expired, count + 1, now)
  {
  }

  lemma SampleEnd(data: Data, unseen: set<Str>, gone: set<Str>, expired: nat, count: nat, now: int)
    requires Sampling(data, unseen, gone, expired, count, now) && (unseen == {} || count >= SAMPLE_SIZE)
    ensures gone <= OverdueKeys(data, now) && |gone| == expired <= SAMPLE_SIZE
    ensures |data| <= SAMPLE_SIZE ==> gone == OverdueKeys(data, now)
  {
  }

  lemma NothingTracked()
    ensures TrackedIn(multiset{}, map[]) == {} && Coherent(multiset{}, map[], 0)
    ensures QueueInv(map[], []) && Used(map[]) == 0
  {
  }

  /** What a candidate is, over the fields. */
  lemma CandidateIsLowest(p: Policy, s: State, v: Str)
    requires UsesHeap(p) && Candidate(p, s, v)
    ensures forall k :: k in Tracked(p, s) && k in s.data ==>
      if p == AllKeysLru then s.data[v].lastAccess <= s.data[k].lastAccess
      else s.data[v].freq < s.data[k].freq
           || (s.data[v].freq == s.data[k].freq && s.data[v].lastAccess <= s.data[k].lastAccess)
  {
  }

  /** By age, or by use and age, no survivor comes before a victim. */
  lemma LowestGone(c: Config, w: State, victims: seq<Str>, s': State)
    requires Inv(w) && UsesHeap(c.policy) && EvictedBy(c, w, victims, s')
    ensures forall v, k :: v in w.data && v !in s'.data && k in s'.data && k != [] ==>
      k in w.data &&
      if c.policy == AllKeysLru then w.data[v].lastAccess <= w.data[k].lastAccess
      else w.data[v].freq < w.data[k].freq
           || (w.data[v].freq == w.data[k].freq && w.data[v].lastAccess <= w.data[k].lastAccess)
  {
    hide EvictedBy, Inv;
    forall v, k | v in w.data && v !in s'.data && k in s'.data && k != []
      ensures k in w.data &&
        if c.policy == AllKeysLru then w.data[v].lastAccess <= w.data[k].lastAccess
        else w.data[v].freq < w.data[k].freq
             || (w.data[v].freq == w.data[k].freq && w.data[v].lastAccess <= w.data[k].lastAccess)
    {
      HeapEvictsLowest(c, w, s', v, k);
    }
  }

  class Store {
    const config: Config
    var data: Data
    var usedMemory: int
    const ring: Ring
    var expiredCount: int
    var accessCounter: int
    const lruHeap: MinHeap
    const lfuHeap: MinHeap

    /** The model state this object stands for. */
    ghost function Abs(): State
      requires ring.Valid()
      reads this, ring, ring.keys, lruHeap, lfuHeap
    {
      State(data, ring.Live(), TrackedIn(lruHeap.Contents(), data), TrackedIn(lfuHeap.Contents(), data),
            accessCounter, expiredCount)
    }

    /** The parts fit together: everything but the byte counter. */
    ghost predicate Linked()
      reads this, ring, lruHeap, lfuHeap
    {
      && lruHeap != lfuHeap && !lruHeap.byFreq && lfuHeap.byFreq
      && ring.Valid() && lruHeap.Valid() && lfuHeap.Valid()
      && Coherent(lruHeap.Contents(), data, accessCounter)
      && Coherent(lfuHeap.Contents(), data, accessCounter)
    }

    ghost predicate Accounted()
      reads this, ring, ring.keys, lruHeap, lfuHeap
    {
      Linked() && usedMemory == Used(data) && QueueInv(data, ring.Live())
    }

    /** What every operation keeps. */
    ghost predicate Valid()
      reads this, ring, ring.keys, lruHeap, lfuHeap
    {
      Accounted() && Inv(Abs())
    }

    constructor (maxMemory: int, policy: Policy)
      ensures Valid() && Abs() == EMPTY && config == Config(maxMemory, policy)
      ensures fresh(ring) && fresh(ring.keys) && fresh(lruHeap) && fresh(lfuHeap)
    {
      config := Config(maxMemory, policy);
      data, usedMemory, expiredCount, accessCounter := map[], 0, 0, 0;
      ring := new Ring();
      lruHeap := new MinHeap(false);
      lfuHeap := new MinHeap(true);
      new;
      NothingTracked();
      EmptyInv();
      hide Inv, QueueInv, Coherent, TrackedIn, Used, Ring.Live, MinHeap.Contents;
    }

    // ---------- Reading and writing ----------

    /** getUnlockedWithNow */
    method Get(key: Str, now: nat) returns (r: Lookup)
      requires Valid()
      modifies this, ring, ring.keys, lruHeap, lfuHeap
      ensures Valid() && (ring.keys == old(ring.keys) || fresh(ring.keys))
      ensures r == Answer(old(Abs()), key, now)
      ensures Abs() == Looked(old(Abs()), key, now)
    {
      hide Inv, QueueInv, Coherent, TrackedIn, Without, RemoveFirst, Used, Ring.Live, MinHeap.Valid, MinHeap.Contents;
      ghost var s := Abs();
      InvLooked(s, key, now);
      InvQueue(Looked(s, key, now));
      if key !in data {
        return NotFound;
      }
      var item := data[key];
      if Overdue(item.expiresAt, now) {
        ExpireKey(key);
        return NotFound;
      }
      if item.kind != TypeString {
        return WrongType;
      }
      accessCounter := accessCounter + 1;
      var touched := item.(lastAccess := now, accessId := accessCounter, freq := item.freq + 1);
      UsedPut(data, key, touched);
      UsedSplit(data, key);
      Put(key, touched);
      return Found(item.value);
    }

    /** The item goes into the map and its access into both heaps. */
    method Put(key: Str, item: Item)
      requires lruHeap != lfuHeap && ring.Valid() && lruHeap.Valid() && lfuHeap.Valid()
      requires Coherent(lruHeap.Contents(), data, accessCounter - 1)
      requires Coherent(lfuHeap.Contents(), data, accessCounter - 1)
      requires item.accessId == accessCounter
      modifies this`data, lruHeap, lfuHeap
      ensures data == old(data)[key := item]
      ensures lruHeap.Valid() && lfuHeap.Valid()
      ensures Coherent(lruHeap.Contents(), data, accessCounter)
      ensures Coherent(lfuHeap.Contents(), data, accessCounter)
      ensures TrackedIn(lruHeap.Contents(), data) == old(TrackedIn(lruHeap.Contents(), data)) + {key}
      ensures TrackedIn(lfuHeap.Contents(), data) == old(TrackedIn(lfuHeap.Contents(), data)) + {key}
    {
      hide Inv, QueueInv, Coherent, TrackedIn, Without, RemoveFirst, Used, Ring.Live, MinHeap.Valid, MinHeap.Contents;
      TrackPush(lruHeap.Contents(), data, accessCounter - 1, key, item);
      TrackPush(lfuHeap.Contents(), data, accessCounter - 1, key, item);
      data := data[key := item];
      lruHeap.Push(EntryFor(key, item));
      lfuHeap.Push(EntryFor(key, item));
    }

    /** setUnlocked */
    method Set(key: Str, value: Str, ttl: int, now: nat, later: nat)
      requires Valid()
      modifies this, ring, ring.keys, lruHeap, lfuHeap
      ensures Valid() && (ring.keys == old(ring.keys) || fresh(ring.keys))
      ensures Step(config, old(Abs()), StoreModel.Set(key, value, ttl, now, later), Abs())
    {
      Write(key, value, ttl, now, later);
      EvictIfNeeded();
    }

    /** setUnlocked up to its call of evictIfNeeded */
    method Write(key: Str, value: Str, ttl: int, now: nat, later: nat)
      requires Valid()
      modifies this, ring, ring.keys, lruHeap, lfuHeap
      ensures Valid() && (ring.keys == old(ring.keys) || fresh(ring.keys))
      ensures Abs() == Written(old(Abs()), key, value, ttl, now, later)
      ensures data == old(data)[key := Item(value, TypeString, if ttl > 0 then later + ttl else 0,
                                            |key| + |value| + 100, 1, now, old(accessCounter) + 1)]
    {
      hide Inv, QueueInv, Coherent, TrackedIn, Without, RemoveFirst, Used, Ring.Live, MinHeap.Valid, MinHeap.Contents;
      ghost var s := Abs();
      InvWritten(s, key, value, ttl, now, later);
      InvQueue(Written(s, key, value, ttl, now, later));
      accessCounter := accessCounter + 1;
      var item := Item(value, TypeString, Deadline(ttl, later), ItemSize(key, value), 1, now, accessCounter);
      UsedPut(data, key, item);
      ForgetOld(key);
      Put(key, item);
      usedMemory := usedMemory + item.size;
      Requeue(key, ttl);
    }

    /** Takes the old item out of the accounting (store.go:427-433). */
    method ForgetOld(key: Str)
      requires ring.Valid() && usedMemory == Used(data) && QueueInv(data, ring.Live())
      modifies this`usedMemory, ring, ring.keys
      ensures ring.Valid() && (ring.keys == old(ring.keys) || fresh(ring.keys))
      ensures usedMemory == Used(data - {key})
      ensures ring.Live() == Without(old(ring.Live()), {key})
      ensures RemoveFirst(ring.Live(), key) == ring.Live()
    {
      hide Inv, QueueInv, Coherent, TrackedIn, Without, RemoveFirst, Used, Ring.Live, MinHeap.Valid, MinHeap.Contents;
      QueueForget(data, ring.Live(), key);
      if key in data {
        UsedSplit(data, key);
        usedMemory := usedMemory - data[key].size;
        if data[key].expiresAt == 0 {
          ring.Remove(key);
        }
      } else {
        assert data - {key} == data;
      }
    }

    /** Queues a key without a TTL, unqueues any other (store.go:438-442). */
    method Requeue(key: Str, ttl: int)
      requires ring.Valid() && RemoveFirst(ring.Live(), key) == ring.Live()
      modifies ring, ring.keys
      ensures ring.Valid() && (ring.keys == old(ring.keys) || fresh(ring.keys))
      ensures ring.Live() == if ttl == 0 && key != [] then old(ring.Live()) + [key] else old(ring.Live())
    {
      hide Inv, QueueInv, Coherent, TrackedIn, Without, RemoveFirst, Used, Ring.Live, MinHeap.Valid, MinHeap.Contents;
      if ttl == 0 {
        ring.Add(key);
      } else {
        ring.Remove(key);
      }
    }

    /** deleteKeyUnlocked, also Delete */
    method DeleteKey(key: Str)
      requires Accounted()
      modifies this`data, this`usedMemory, ring, ring.keys
      ensures Accounted() && (ring.keys == old(ring.keys) || fresh(ring.keys))
      ensures Abs() == Removed(old(Abs()), {key})
      ensures old(Inv(Abs())) ==> Valid()
      ensures ring.size <= old(ring.size)
    {
      hide Inv, QueueInv, Coherent, TrackedIn, Without, RemoveFirst, Used, Ring.Live, MinHeap.Valid, MinHeap.Contents;
      ghost var s := Abs();
      if Inv(s) {
        InvRemoved(s, {key});
      }
      TrackRemove(lruHeap.Contents(), data, accessCounter, key);
      TrackRemove(lfuHeap.Contents(), data, accessCounter, key);
      QueueForget(data, ring.Live(), key);
      if key in data {
        UsedSplit(data, key);
        usedMemory := usedMemory - data[key].size;
        if data[key].expiresAt == 0 {
          ring.Remove(key);
        }
        data := data - {key};
      } else {
        assert data - {key} == data;
      }
    }

    /** A deletion that counts as an expiry. */
    method ExpireKey(key: Str)
      requires Valid()
      modifies this`data, this`usedMemory, this`expiredCount, ring, ring.keys
      ensures Valid() && (ring.keys == old(ring.keys) || fresh(ring.keys))
      ensures Abs() == Removed(old(Abs()), {key}).(expired := old(Abs()).expired + 1)
    {
      hide Inv, QueueInv, Coherent, TrackedIn, Without, RemoveFirst, Used, Ring.Live, MinHeap.Valid, MinHeap.Contents;
      DeleteKey(key);
      InvCount(Abs(), expiredCount + 1);
      expiredCount := expiredCount + 1;
    }

    // ---------- Eviction ----------

    /** evictIfNeeded */
    method EvictIfNeeded()
      requires Valid()
      modifies this, ring, ring.keys, lruHeap, lfuHeap
      ensures Valid() && (ring.keys == old(ring.keys) || fresh(ring.keys))
      ensures Evicted(config, old(Abs()), Abs())
    {
      hide Inv, QueueInv, Coherent, TrackedIn, Without, RemoveFirst, Used, Ring.Live, MinHeap.Valid, MinHeap.Contents;
      hide EvictionPath, Removed;
      PathEmpty(config, Abs());
      ghost var victims: seq<Str>;
      if config.maxMemory <= 0 || usedMemory <= config.maxMemory {
        victims := [];
      } else {
        match config.policy {
          case AllKeysRandom =>
            victims := EvictRandom(false);
          case VolatileRandom =>
            victims := EvictRandom(true);
          case AllKeysLru =>
            victims := EvictByHeap(lruHeap);
          case AllKeysLfu =>
            victims := EvictByHeap(lfuHeap);
          case NoEviction =>
            victims := EvictFifo();
        }
      }
      assert EvictedBy(config, old(Abs()), victims, Abs());
    }

    /** The default branch of evictIfNeeded: oldest non-expiring keys, then keys with a TTL. */
    method EvictFifo() returns (ghost victims: seq<Str>)
      requires Valid() && config.maxMemory > 0 && config.policy == NoEviction
      modifies this, ring, ring.keys
      ensures Valid() && (ring.keys == old(ring.keys) || fresh(ring.keys))
      ensures EvictedBy(config, old(Abs()), victims, Abs())
    {
      hide Inv, QueueInv, Coherent, TrackedIn, Without, RemoveFirst, Used, Ring.Live, MinHeap.Valid, MinHeap.Contents;
      hide EvictionPath;
      ghost var s := Abs();
      victims := [];
      PathEmpty(config, s);
      while usedMemory > config.maxMemory && ring.size > 0
        invariant Valid() && (ring.keys == old(ring.keys) || fresh(ring.keys))
        invariant EvictionPath(config, s, victims) && Abs() == Removed(s, Elems(victims))
        decreases ring.size
      {
        var key := PopOldest();
        if key != [] {
          PathSnoc(config, s, victims, key);
          victims := victims + [key];
        }
      }
      if usedMemory > config.maxMemory {
        ring.EmptyWindow();
        var unseen := data.Keys;
        while unseen != {}
          invariant Valid() && (ring.keys == old(ring.keys) || fresh(ring.keys))
          invariant EvictionPath(config, s, victims) && Abs() == Removed(s, Elems(victims))
          invariant ring.Live() == []
          invariant unseen <= data.Keys
          invariant forall k :: k in data && k !in unseen ==> data[k].expiresAt <= 0
          decreases unseen
        {
          if usedMemory <= config.maxMemory {
            break;
          }
          var key :| key in unseen;
          unseen := unseen - {key};
          if data[key].expiresAt > 0 {
            PathSnoc(config, s, victims, key);
            victims := victims + [key];
            WithoutDisjoint([], {key});
            DeleteKey(key);
          }
        }
      }
    }

    /** One round of the FIFO loop: pop the ring and delete that key, if any. */
    method PopOldest() returns (key: Str)
      requires Valid() && ring.size > 0
      modifies this`data, this`usedMemory, ring, ring.keys
      ensures Valid() && (ring.keys == old(ring.keys) || fresh(ring.keys))
      ensures ring.size < old(ring.size)
      ensures old(Abs()).fifo == [] ==> key == [] && Abs() == old(Abs())
      ensures old(Abs()).fifo != [] ==>
        key != [] && Candidate(NoEviction, old(Abs()), key) && Abs() == Removed(old(Abs()), {key})
    {
      hide Inv, QueueInv, Coherent, TrackedIn, Without, RemoveFirst, Used, Ring.Live, MinHeap.Valid, MinHeap.Contents;
      ghost var s := Abs();
      key := ring.Pop();
      if key != [] {
        PoppedFifo(s);
        InvRemoved(s, {key});
        DeleteKey(key);
      }
    }

    /** evictRandom: keys in the arbitrary order of a map walk */
    method EvictRandom(volatileOnly: bool) returns (ghost victims: seq<Str>)
      requires Valid() && config.maxMemory > 0
      requires config.policy == if volatileOnly then VolatileRandom else AllKeysRandom
      modifies this`data, this`usedMemory, ring, ring.keys
      ensures Valid() && (ring.keys == old(ring.keys) || fresh(ring.keys))
      ensures EvictedBy(config, old(Abs()), victims, Abs())
    {
      hide Inv, QueueInv, Coherent, TrackedIn, Without, RemoveFirst, Used, Ring.Live, MinHeap.Valid, MinHeap.Contents;
      hide EvictionPath;
      ghost var s := Abs();
      victims := [];
      PathEmpty(config, s);
      var unseen := data.Keys;
      while unseen != {}
        invariant Valid() && (ring.keys == old(ring.keys) || fresh(ring.keys))
        invariant EvictionPath(config, s, victims) && Abs() == Removed(s, Elems(victims))
        invariant unseen <= data.Keys
        invariant forall k :: k in data && k !in unseen ==> volatileOnly && data[k].expiresAt == 0
        decreases unseen
      {
        if usedMemory <= config.maxMemory {
          return;
        }
        var key :| key in unseen;
        unseen := unseen - {key};
        if volatileOnly && data[key].expiresAt == 0 {
          continue;
        }
        PathSnoc(config, s, victims, key);
        victims := victims + [key];
        DeleteKey(key);
      }
    }

    /** evictLRU and evictLFU */
    method EvictByHeap(heap: MinHeap) returns (ghost victims: seq<Str>)
      requires Valid() && config.maxMemory > 0
      requires UsesHeap(config.policy) && heap == if config.policy == AllKeysLfu then lfuHeap else lruHeap
      modifies this`data, this`usedMemory, ring, ring.keys, heap
      ensures Valid() && (ring.keys == old(ring.keys) || fresh(ring.keys))
      ensures EvictedBy(config, old(Abs()), victims, Abs())
      ensures forall v, k :: v in old(data) && v !in data && k in data && k != [] ==>
        k in old(data) &&
        if config.policy == AllKeysLru then old(data)[v].lastAccess <= old(data)[k].lastAccess
        else old(data)[v].freq < old(data)[k].freq
             || (old(data)[v].freq == old(data)[k].freq && old(data)[v].lastAccess <= old(data)[k].lastAccess)
    {
      ghost var s := Abs();
      victims := EvictLowest(heap);
      LowestGone(config, s, victims, Abs());
    }

    /** The loop of evictLRU and evictLFU. */
    method EvictLowest(heap: MinHeap) returns (ghost victims: seq<Str>)
      requires Valid() && config.maxMemory > 0
      requires UsesHeap(config.policy) && heap == if config.policy == AllKeysLfu then lfuHeap else lruHeap
      modifies this`data, this`usedMemory, ring, ring.keys, heap
      ensures Valid() && (ring.keys == old(ring.keys) || fresh(ring.keys))
      ensures EvictedBy(config, old(Abs()), victims, Abs())
    {
      hide Inv, QueueInv, Coherent, TrackedIn, Without, RemoveFirst, Used, Ring.Live, MinHeap.Valid, MinHeap.Contents;
      hide EvictionPath, Removed, Untracked, Candidate;
      ghost var s := Abs();
      victims := [];
      PathEmpty(config, s);
      while usedMemory > config.maxMemory
        invariant Valid() && (ring.keys == old(ring.keys) || fresh(ring.keys))
        invariant EvictionPath(config, s, victims) && Abs() == Removed(s, Elems(victims))
        decreases |heap.entries|
      {
        ghost var m := Abs();
        var key := PopFresh(heap);
        if key == [] {
          InvUntracked(config.policy, m);
          return;
        }
        PathSnoc(config, s, victims, key);
        victims := victims + [key];
        InvRemoved(m, {key});
        RemovedUntracked(config.policy, m, key);
        DeleteKey(key);
      }
    }

    /** popLRU and popLFU: pops until an entry is fresh; the empty key means there was none. */
    method PopFresh(heap: MinHeap) returns (key: Str)
      requires Valid()
      requires UsesHeap(config.policy) && heap == if config.policy == AllKeysLfu then lfuHeap else lruHeap
      modifies heap
      ensures Accounted() && |heap.entries| <= old(|heap.entries|)
      ensures Tracked(config.policy, old(Abs())) == {} ==> key == [] && Abs() == old(Abs())
      ensures Tracked(config.policy, old(Abs())) != {} ==>
        && Candidate(config.policy, old(Abs()), key)
        && Abs() == Untracked(config.policy, old(Abs()), key)
        && |heap.entries| < old(|heap.entries|)
        && forall k :: k in Tracked(config.policy, old(Abs())) && k in data ==>
             if config.policy == AllKeysLru then data[key].lastAccess <= data[k].lastAccess
             else data[key].freq < data[k].freq
                  || (data[key].freq == data[k].freq && data[key].lastAccess <= data[k].lastAccess)
    {
      hide Inv, QueueInv, Coherent, TrackedIn, Without, RemoveFirst, Used, Ring.Live, MinHeap.Valid, MinHeap.Contents;
      hide RanksBelow;
      ghost var s := Abs();
      while |heap.entries| > 0
        invariant Valid() && Abs() == s && |heap.entries| <= old(|heap.entries|)
        decreases |heap.entries|
      {
        ghost var before := heap.Contents();
        var e := heap.Pop();
        if e.key in data && data[e.key].accessId == e.version {
          MinimalEntryMinimalKey(heap.byFreq, before, data, accessCounter, e);
          TrackPopFresh(heap.Contents(), data, accessCounter, e);
          CandidateIsLowest(config.policy, s, e.key);
          return e.key;
        }
        TrackPopStale(heap.Contents(), data, accessCounter, e);
      }
      heap.EmptyContents();
      TrackNothing(heap.Contents(), data, accessCounter);
      key := [];
    }

    // ---------- Expiry, snapshot and restore ----------

    /** activeExpire: a sample in map order, then a full pass when most of it was overdue */
    method ActiveExpire(now: nat)
      requires Valid()
      modifies this, ring, ring.keys
      ensures Valid() && (ring.keys == old(ring.keys) || fresh(ring.keys))
      ensures Swept(old(Abs()), now, Abs())
    {
      hide Inv, QueueInv, Coherent, TrackedIn, Without, RemoveFirst, Used, Ring.Live, MinHeap.Valid, MinHeap.Contents;
      ghost var s := Abs();
      var expired, gone := ExpireSample(now);
      if expired > SAMPLE_SIZE / 2 {
        OverdueSplit(s.data, gone, now);
        RemovedThenCounted(s, gone, OverdueKeys(data, now), expiredCount);
        ghost var more := ExpireAll(now);
        gone := gone + more;
      }
      assert SweptBy(s, now, gone, expired, Abs());
    }

    /** The sampling loop of activeExpire (store.go:214-230). */
    method ExpireSample(now: nat) returns (expired: nat, ghost gone: set<Str>)
      requires Valid()
      modifies this`data, this`usedMemory, this`expiredCount, ring, ring.keys
      ensures Valid() && (ring.keys == old(ring.keys) || fresh(ring.keys))
      ensures gone <= OverdueKeys(old(data), now) && |gone| == expired <= SAMPLE_SIZE
      ensures Abs() == Expunged(old(Abs()), gone, expired)
      ensures |old(data)| <= SAMPLE_SIZE ==> gone == OverdueKeys(old(data), now)
    {
      hide Inv, QueueInv, Coherent, TrackedIn, Without, RemoveFirst, Used, Ring.Live, MinHeap.Valid, MinHeap.Contents;
      hide Sampling, OverdueKeys, Expunged;
      ghost var s := Abs();
      ExpungedNone(s);
      SampleStart(data, now);
      gone := {};
      var unseen, count := data.Keys, 0;
      expired := 0;
      while unseen != {} && count < SAMPLE_SIZE
        invariant Valid() && (ring.keys == old(ring.keys) || fresh(ring.keys))
        invariant Abs() == Expunged(s, gone, expired)
        invariant Sampling(s.data, unseen, gone, expired, count, now)
        decreases unseen
      {
        var key :| key in unseen;
        SampleStep(s.data, unseen, gone, expired, count, key, now);
        unseen := unseen - {key};
        if Overdue(data[key].expiresAt, now) {
          ExpireSampled(key, s, gone, expired);
          gone := gone + {key};
          expired := expired + 1;
        }
        count := count + 1;
      }
      SampleEnd(s.data, unseen, gone, expired, count, now);
    }

    /** One overdue key of the sample, after `n` others. */
    method ExpireSampled(key: Str, ghost s: State, ghost gone: set<Str>, ghost n: nat)
      requires Valid() && Abs() == Expunged(s, gone, n)
      modifies this`data, this`usedMemory, this`expiredCount, ring, ring.keys
      ensures Valid() && (ring.keys == old(ring.keys) || fresh(ring.keys))
      ensures Abs() == Expunged(s, gone + {key}, n + 1)
    {
      hide Inv, QueueInv, Coherent, TrackedIn, Without, RemoveFirst, Used, Ring.Live, MinHeap.Valid, MinHeap.Contents;
      RemovedThenCounted(s, gone, {key}, s.expired + n);
      ExpireKey(key);
    }

    /** The full pass of activeExpire (store.go:234-238). */
    method ExpireAll(now: nat) returns (ghost gone: set<Str>)
      requires Valid()
      modifies this`data, this`usedMemory, ring, ring.keys
      ensures Valid() && (ring.keys == old(ring.keys) || fresh(ring.keys))
      ensures gone == OverdueKeys(old(data), now)
      ensures Abs() == Removed(old(Abs()), gone)
    {
      hide Inv, QueueInv, Coherent, TrackedIn, Without, RemoveFirst, Used, Ring.Live, MinHeap.Valid, MinHeap.Contents;
      ghost var s := Abs();
      RemovedNothing(s);
      gone := {};
      var unseen := data.Keys;
      while unseen != {}
        invariant Valid() && (ring.keys == old(ring.keys) || fresh(ring.keys))
        invariant unseen <= data.Keys && gone <= OverdueKeys(s.data, now)
        invariant Abs() == Removed(s, gone)
        invariant forall k :: k in data && k !in unseen ==> !Overdue(data[k].expiresAt, now)
        decreases unseen
      {
        var key :| key in unseen;
        unseen := unseen - {key};
        if Overdue(data[key].expiresAt, now) {
          RemovedTwice(s, gone, {key});
          gone := gone + {key};
          DeleteKey(key);
        }
      }
    }

    /** SnapshotEntries */
    method SnapshotEntries(now: nat) returns (entries: seq<SnapshotEntry>)
      requires Valid()
      ensures IsSnapshot(Abs(), now, entries)
    {
      entries := [];
      var unseen := data.Keys;
      while unseen != {}
        invariant unseen <= data.Keys
        invariant DistinctKeys(entries)
        invariant forall e :: e in entries ==>
          e.key in data && e.key !in unseen && !Overdue(data[e.key].expiresAt, now) && e == EntryOf(e.key, data[e.key])
        invariant forall k :: k in data && k !in unseen && !Overdue(data[k].expiresAt, now) ==>
          EntryOf(k, data[k]) in entries
        decreases unseen
      {
        var k :| k in unseen;
        unseen := unseen - {k};
        if !Overdue(data[k].expiresAt, now) {
          entries := entries + [EntryOf(k, data[k])];
        }
      }
    }

    /**
     * RestoreSnapshot: the heaps keep the entries of the data that was replaced. A key
     * that is let in twice is charged twice; otherwise everything is in order again.
     */
    method RestoreSnapshot(entries: seq<SnapshotEntry>, now: nat)
      requires Valid()
      modifies this, ring, ring.keys, lruHeap, lfuHeap
      ensures Linked() && (ring.keys == old(ring.keys) || fresh(ring.keys))
      ensures Abs() == Loaded(old(Abs()), entries, now) && usedMemory == Charged(entries, now)
      ensures DistinctLive(entries, now) ==> Valid()
    {
      hide Inv, QueueInv, Coherent, TrackedIn, Without, RemoveFirst, Used, Ring.Live, MinHeap.Valid, MinHeap.Contents;
      ghost var s := Abs();
      TrackNothing(lruHeap.Contents(), data, accessCounter);
      TrackNothing(lfuHeap.Contents(), data, accessCounter);
      data, usedMemory := map[], 0;
      ring.Reset();
      assert entries[..0] == [];
      for i := 0 to |entries|
        invariant Linked() && (ring.keys == old(ring.keys) || fresh(ring.keys))
        invariant Abs() == Loaded(s, entries[..i], now) && usedMemory == Charged(entries[..i], now)
      {
        var e := entries[i];
        assert entries[..i + 1][..i] == entries[..i];
        if !Overdue(e.expiresAt, now) {
          LoadOne(e, now);
        }
      }
      assert entries[..|entries|] == entries;
      if DistinctLive(entries, now) {
        InvLoaded(s, entries, now);
        InvQueue(Loaded(s, entries, now));
        ChargedExactly(s, entries, now);
      }
    }

    /** The loop body of RestoreSnapshot for an entry that is not overdue. */
    method LoadOne(e: SnapshotEntry, now: nat)
      requires Linked() && !Overdue(e.expiresAt, now)
      modifies this, ring, ring.keys, lruHeap, lfuHeap
      ensures Linked() && (ring.keys == old(ring.keys) || fresh(ring.keys))
      ensures Abs() == LoadedOne(old(Abs()), e, now)
      ensures usedMemory == old(usedMemory) + ItemSize(e.key, e.value)
    {
      hide Coherent, TrackedIn, Ring.Live, MinHeap.Valid, MinHeap.Contents;
      accessCounter := accessCounter + 1;
      var item := Item(e.value, e.kind, e.expiresAt, ItemSize(e.key, e.value), 1, now, accessCounter);
      Put(e.key, item);
      usedMemory := usedMemory + item.size;
      if item.expiresAt == 0 {
        ring.Add(e.key);
      }
    }
  }
}
