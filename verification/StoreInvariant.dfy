/** Every step of the store keeps its invariant, and so does every run. */
module StoreInvariant {
  import opened Bytes
  import opened StoreModel
  import opened StoreFacts

  lemma EmptyInv()
    ensures Inv(EMPTY)
  {
  }

  lemma InvQueue(s: State)
    requires Inv(s)
    ensures QueueInv(s.data, s.fifo)
  {
  }

  lemma InvCount(s: State, n: int)
    requires Inv(s)
    ensures Inv(s.(expired := n))
  {
  }

  lemma RegularCount(s: State, n: int)
    requires Regular(s)
    ensures Regular(s.(expired := n))
  {
  }

  lemma InvRemoved(s: State, gone: set<Str>)
    requires Inv(s)
    ensures Inv(Removed(s, gone))
  {
    WithoutMember(s.fifo, gone);
    WithoutNoDuplicates(s.fifo, gone);
  }

  lemma RegularRemoved(s: State, gone: set<Str>)
    requires Regular(s)
    ensures Regular(Removed(s, gone))
  {
    WithoutMember(s.fifo, gone);
  }

  lemma QueuePut(data: Data, q: seq<Str>, key: Str, item: Item)
    requires QueueInv(data, q)
    ensures QueueInv(data[key := item], Without(q, {key}))
    ensures key != [] && item.expiresAt == 0 ==> QueueInv(data[key := item], Without(q, {key}) + [key])
  {
    WithoutMember(q, {key});
    WithoutNoDuplicates(q, {key});
  }

  /** An item under a new id. */
  lemma ItemsPut(data: Data, counter: int, key: Str, item: Item)
    requires ItemsInv(data, counter)
    requires item.size == ItemSize(key, item.value) && item.accessId == counter + 1
    ensures ItemsInv(data[key := item], counter + 1)
  {
  }

  lemma InvWritten(s: State, key: Str, value: Str, ttl: int, now: nat, later: nat)
    requires Inv(s)
    ensures Inv(Written(s, key, value, ttl, now, later))
    ensures Regular(s) && key != [] && ttl >= 0 ==> Regular(Written(s, key, value, ttl, now, later))
  {
    hide QueueInv, ItemsInv;
    var s' := Written(s, key, value, ttl, now, later);
    ItemsPut(s.data, s.counter, key, s'.data[key]);
    QueuePut(s.data, s.fifo, key, s'.data[key]);
    WithoutMember(s.fifo, {key});
  }

  lemma QueueTouch(data: Data, q: seq<Str>, key: Str, item: Item)
    requires QueueInv(data, q) && key in data && data[key].expiresAt == item.expiresAt
    ensures QueueInv(data[key := item], q)
  {
  }

  lemma ItemSized(s: State, key: Str)
    requires Inv(s) && key in s.data
    ensures s.data[key].size == ItemSize(key, s.data[key].value)
  {
  }

  lemma InvLooked(s: State, key: Str, now: int)
    requires Inv(s)
    ensures Inv(Looked(s, key, now))
    ensures Regular(s) ==> Regular(Looked(s, key, now))
  {
    if key in s.data && Overdue(s.data[key].expiresAt, now) {
      hide Inv, Regular;
      InvRemoved(s, {key});
      InvCount(Removed(s, {key}), s.expired + 1);
      if Regular(s) {
        RegularRemoved(s, {key});
        RegularCount(Removed(s, {key}), s.expired + 1);
      }
    } else if key in s.data {
      ItemSized(s, key);
      hide QueueInv, ItemsInv;
      var item := Looked(s, key, now).data[key];
      if s.data[key].kind == TypeString {
        ItemsPut(s.data, s.counter, key, item);
      }
      QueueTouch(s.data, s.fifo, key, item);
    }
  }

  lemma InvLoadedOne(s: State, e: SnapshotEntry, now: nat)
    requires Inv(s) && e.key !in s.data
    ensures Inv(LoadedOne(s, e, now))
    ensures Regular(s) && e.key != [] && e.expiresAt >= 0 ==> Regular(LoadedOne(s, e, now))
  {
    WithoutDisjoint(s.fifo, {e.key});
    hide QueueInv, ItemsInv;
    if !Overdue(e.expiresAt, now) {
      ItemsPut(s.data, s.counter, e.key, LoadedOne(s, e, now).data[e.key]);
      QueuePut(s.data, s.fifo, e.key, LoadedOne(s, e, now).data[e.key]);
    }
  }

  lemma InvCleared(s: State)
    requires Inv(s)
    ensures Inv(Loaded(s, [], 0)) && Regular(Loaded(s, [], 0))
  {
  }

  /** Some entry that is not overdue has this key. */
  ghost predicate LetIn(entries: seq<SnapshotEntry>, now: int, k: Str) {
    exists i :: 0 <= i < |entries| && !Overdue(entries[i].expiresAt, now) && entries[i].key == k
  }

  lemma LetInSnoc(entries: seq<SnapshotEntry>, now: int, k: Str)
    requires entries != []
    ensures var front, e := entries[..|entries| - 1], entries[|entries| - 1];
      LetIn(entries, now, k) <==> LetIn(front, now, k) || (!Overdue(e.expiresAt, now) && e.key == k)
  {
    var n := |entries| - 1;
    if i :| 0 <= i < n && !Overdue(entries[..n][i].expiresAt, now) && entries[..n][i].key == k {
      assert entries[i].key == k;
    }
    if i :| 0 <= i < |entries| && !Overdue(entries[i].expiresAt, now) && entries[i].key == k {
      assert i < n ==> entries[..n][i].key == k;
    }
  }

  lemma {:induction false} LoadedKeys(s: State, entries: seq<SnapshotEntry>, now: nat)
    ensures forall k :: k in Loaded(s, entries, now).data <==> LetIn(entries, now, k)
    decreases |entries|
  {
    if entries != [] {
      LoadedKeys(s, entries[..|entries| - 1], now);
      hide LetIn;
      forall k ensures k in Loaded(s, entries, now).data <==> LetIn(entries, now, k) {
        LetInSnoc(entries, now, k);
      }
    }
  }

  lemma DistinctLiveSnoc(entries: seq<SnapshotEntry>, now: int)
    requires entries != []
    ensures var front, e := entries[..|entries| - 1], entries[|entries| - 1];
      DistinctLive(entries, now)
      <==> DistinctLive(front, now) && (Overdue(e.expiresAt, now) || !LetIn(front, now, e.key))
  {
    var n := |entries| - 1;
    var front, e := entries[..n], entries[n];
    if DistinctLive(front, now) && (Overdue(e.expiresAt, now) || !LetIn(front, now, e.key)) {
      forall i, j | 0 <= i < j < |entries| && !Overdue(entries[i].expiresAt, now)
                    && !Overdue(entries[j].expiresAt, now)
        ensures entries[i].key != entries[j].key
      {
        assert front[i] == entries[i];
        if j < n {
          assert front[j] == entries[j];
        }
      }
    }
  }

  lemma {:induction false} InvLoaded(s: State, entries: seq<SnapshotEntry>, now: nat)
    requires Inv(s) && DistinctLive(entries, now)
    ensures Inv(Loaded(s, entries, now))
    ensures RegularOp(Restore(entries, now)) ==> Regular(Loaded(s, entries, now))
    decreases |entries|
  {
    if entries == [] {
      hide Inv, Regular;
      InvCleared(s);
    } else {
      DistinctLiveSnoc(entries, now);
      hide Inv, Regular, DistinctLive, LetIn;
      var front, e := entries[..|entries| - 1], entries[|entries| - 1];
      assert (forall x :: x in front ==> x in entries) && e in entries;
      InvLoaded(s, front, now);
      LoadedKeys(s, front, now);
      if !Overdue(e.expiresAt, now) {
        InvLoadedOne(Loaded(s, front, now), e, now);
      }
    }
  }

  lemma {:induction false} LoadedSizes(s: State, entries: seq<SnapshotEntry>, now: nat)
    ensures forall k :: k in Loaded(s, entries, now).data ==> Loaded(s, entries, now).data[k].size >= 100
    decreases |entries|
  {
    if entries != [] {
      LoadedSizes(s, entries[..|entries| - 1], now);
    }
  }

  /** The byte counter after a restore is right if and only if no key was let in twice. */
  lemma {:induction false} ChargedExactly(s: State, entries: seq<SnapshotEntry>, now: nat)
    ensures Used(Loaded(s, entries, now).data) <= Charged(entries, now)
    ensures Charged(entries, now) == Used(Loaded(s, entries, now).data) <==> DistinctLive(entries, now)
    decreases |entries|
  {
    if entries != [] {
      var front, e := entries[..|entries| - 1], entries[|entries| - 1];
      var before := Loaded(s, front, now).data;
      ChargedExactly(s, front, now);
      DistinctLiveSnoc(entries, now);
      LoadedKeys(s, front, now);
      LoadedSizes(s, front, now);
      hide DistinctLive, LetIn;
      if !Overdue(e.expiresAt, now) {
        UsedPut(before, e.key, Loaded(s, entries, now).data[e.key]);
        if e.key in before {
          UsedSplit(before, e.key);
        } else {
          assert before - {e.key} == before;
        }
      }
    }
  }

  /** The empty key may lose its heap entry. */
  lemma InvUntracked(p: Policy, s: State)
    requires Inv(s)
    ensures Inv(Untracked(p, s, []))
    ensures Regular(s) ==> Regular(Untracked(p, s, []))
  {
  }

  lemma InvEvicted(c: Config, s: State, s': State)
    requires Inv(s) && Evicted(c, s, s')
    ensures Inv(s')
    ensures Regular(s) ==> Regular(s')
  {
    hide Inv, Regular, Candidate, Untracked, Removed, EvictionPath, Over, Exhausted;
    var victims :| EvictedBy(c, s, victims, s');
    var m := Removed(s, Elems(victims));
    InvRemoved(s, Elems(victims));
    if Regular(s) {
      RegularRemoved(s, Elems(victims));
    }
    InvUntracked(c.policy, m);
  }

  lemma InvSwept(s: State, now: int, s': State)
    requires Inv(s) && Swept(s, now, s')
    ensures Inv(s')
    ensures Regular(s) ==> Regular(s')
  {
    var gone, n :| SweptBy(s, now, gone, n, s');
    InvRemoved(s, gone);
    if Regular(s) {
      RegularRemoved(s, gone);
    }
  }

  /** One step keeps the invariant; a regular operation also keeps a regular state. */
  lemma InvStep(c: Config, s: State, op: Op, s': State)
    requires Inv(s) && Allowed(op) && Step(c, s, op, s')
    ensures Inv(s')
    ensures Regular(s) && RegularOp(op) ==> Regular(s')
  {
    match op
    case Set(key, value, ttl, now, later) =>
      InvWritten(s, key, value, ttl, now, later);
      InvEvicted(c, Written(s, key, value, ttl, now, later), s');
    case Get(key, now) => InvLooked(s, key, now);
    case Delete(key) =>
      InvRemoved(s, {key});
      if Regular(s) {
        RegularRemoved(s, {key});
      }
    case ActiveExpire(now) => InvSwept(s, now, s');
    case Restore(entries, now) => InvLoaded(s, entries, now);
  }

  /** Every state of every run satisfies the invariant, under every policy. */
  lemma {:induction false} InvRun(c: Config, ops: seq<Op>, states: seq<State>, i: nat)
    requires Run(c, ops, states) && i < |states|
    ensures Inv(states[i])
    ensures (forall op :: op in ops ==> RegularOp(op)) ==> Regular(states[i])
  {
    if i > 0 {
      InvRun(c, ops, states, i - 1);
      InvStep(c, states[i - 1], ops[i - 1], states[i]);
    }
  }

  // ---------- Access ids ----------

  /** An item carried over from one state to a later one, or one with a new id. */
  ghost predicate KeptOrFresh(s: State, s': State) {
    && s.counter <= s'.counter
    && forall k :: k in s'.data ==>
         s'.data[k].accessId > s.counter || (k in s.data && s'.data[k] == s.data[k])
  }

  lemma {:induction false} LoadedFresh(s: State, entries: seq<SnapshotEntry>, now: nat)
    ensures s.counter <= Loaded(s, entries, now).counter
    ensures forall k :: k in Loaded(s, entries, now).data ==> Loaded(s, entries, now).data[k].accessId > s.counter
    decreases |entries|
  {
    if entries != [] {
      LoadedFresh(s, entries[..|entries| - 1], now);
    }
  }

  lemma EvictedCounter(c: Config, s: State, victims: seq<Str>, s': State)
    requires EvictedBy(c, s, victims, s')
    ensures s'.counter == s.counter
  {
    hide EvictionPath, Candidate, Exhausted, Over;
  }

  lemma FreshStep(c: Config, s: State, op: Op, s': State)
    requires Step(c, s, op, s')
    ensures KeptOrFresh(s, s')
  {
    hide Without;
    match op
    case Set(key, value, ttl, now, later) =>
      hide EvictionPath, EvictionEnd;
      var w := Written(s, key, value, ttl, now, later);
      var victims :| EvictedBy(c, w, victims, s');
      EvictedParts(c, w, victims, s');
      EvictedCounter(c, w, victims, s');
    case Restore(entries, now) => LoadedFresh(s, entries, now);
    case _ =>
  }

  /**
   * Access ids are never reused: an item with an id that was already handed out
   * in state `i` is, in every later state, still that item of that key.
   */
  lemma {:induction false} IdsNeverReused(c: Config, ops: seq<Op>, states: seq<State>, i: nat, j: nat)
    requires Run(c, ops, states) && i <= j < |states|
    ensures KeptOrFresh(states[i], states[j])
    decreases j - i
  {
    if i < j {
      IdsNeverReused(c, ops, states, i, j - 1);
      FreshStep(c, states[j - 1], ops[j - 1], states[j]);
    }
  }
}
