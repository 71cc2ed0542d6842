/** What eviction achieves, and what it chooses, under each policy. */
module StoreEviction {
  import opened Bytes
  import opened StoreModel
  import opened StoreFacts
  import opened StoreInvariant

  // ---------- The memory limit ----------

  /** Below the limit a Set ends where it has written. */
  lemma StepBelow(c: Config, s: State, op: Op)
    requires op.Set? && !Over(c, AfterWrite(s, op))
    ensures Step(c, s, op, AfterWrite(s, op))
  {
    PathEmpty(c, AfterWrite(s, op));
    assert EvictedBy(c, AfterWrite(s, op), [], AfterWrite(s, op));
  }

  /** The items a policy can never evict. */
  function Pinned(p: Policy, s: State): Data
    requires !UsesHeap(p)
  {
    match p
    case NoEviction => map k | k in s.data && k !in s.fifo && s.data[k].expiresAt <= 0 :: s.data[k]
    case VolatileRandom => map k | k in s.data && s.data[k].expiresAt == 0 :: s.data[k]
    case _ => map[]
  }

  /** A pinned key is never a candidate, however many other keys have gone. */
  lemma PinnedStays(p: Policy, s: State, gone: set<Str>, v: Str)
    requires !UsesHeap(p) && Inv(s) && v in Pinned(p, s)
    ensures !Candidate(p, Removed(s, gone), v)
  {
    WithoutMember(s.fifo, gone);
  }

  lemma {:induction false} PinnedSurvive(c: Config, s: State, victims: seq<Str>)
    requires !UsesHeap(c.policy) && Inv(s) && EvictionPath(c, s, victims)
    ensures forall k :: k in Pinned(c.policy, s) ==> k !in victims
  {
    forall i | 0 <= i < |victims| ensures victims[i] !in Pinned(c.policy, s) {
      if victims[i] in Pinned(c.policy, s) {
        PinnedStays(c.policy, s, Elems(victims[..i]), victims[i]);
      }
    }
  }

  /**
   * FIFO, all-keys-random and volatile-random: a Set ends over the limit if and
   * only if the pinned items alone are over it.
   */
  lemma LimitExact(c: Config, s: State, op: Op, s': State)
    requires Inv(s) && op.Set? && Step(c, s, op, s')
    requires c.maxMemory > 0 && !UsesHeap(c.policy)
    ensures Used(s'.data) > c.maxMemory <==> Used(Pinned(c.policy, AfterWrite(s, op))) > c.maxMemory
  {
    var w := AfterWrite(s, op);
    InvWritten(s, op.key, op.value, op.ttl, op.now, op.later);
    hide Inv, Evicted, Pinned, Written;
    PinnedStored(c, w, s');
    if Used(s'.data) > c.maxMemory {
      OnlyPinnedLeft(c, w, s');
    }
  }

  lemma PinnedStored(c: Config, w: State, s': State)
    requires Inv(w) && !UsesHeap(c.policy) && Evicted(c, w, s')
    ensures Used(Pinned(c.policy, w)) <= Used(s'.data)
  {
    SizesPositive(w);
    hide Inv, EvictionPath, EvictionEnd;
    var victims :| EvictedBy(c, w, victims, s');
    EvictedParts(c, w, victims, s');
    PinnedSurvive(c, w, victims);
    UsedSubset(Pinned(c.policy, w), s'.data);
  }

  /** Eviction that has not met the limit has nothing but pinned items left. */
  lemma OnlyPinnedLeft(c: Config, w: State, s': State)
    requires Inv(w) && !UsesHeap(c.policy) && Evicted(c, w, s') && Over(c, s')
    ensures s'.data == Pinned(c.policy, w)
  {
    hide Inv, EvictionPath, Without;
    var victims :| EvictedBy(c, w, victims, s');
    EvictedParts(c, w, victims, s');
    WithoutMember(w.fifo, Elems(victims));
    PinnedSurvive(c, w, victims);
    assert Exhausted(c.policy, s');
    assert s'.data.Keys == Pinned(c.policy, w).Keys;
  }

  // ---------- The limit under LRU and LFU ----------

  /** Without an entry for the empty key, heap eviction ends where only that key is left. */
  lemma OnlyEmptyKey(p: Policy, m: State)
    requires Inv(m) && UsesHeap(p) && Exhausted(p, m)
    ensures m.data.Keys <= {[]}
    ensures Used(m.data) == if [] in m.data then m.data[[]].size else 0
  {
    if [] in m.data {
      UsedSplit(m.data, []);
      assert m.data - {[]} == map[];
    } else {
      assert m.data.Keys == {};
      assert m.data == map[];
    }
  }

  /** The empty key is never a victim of a heap policy. */
  lemma EmptyKeySurvives(c: Config, w: State, victims: seq<Str>)
    requires UsesHeap(c.policy) && EvictionPath(c, w, victims)
    ensures [] !in victims
  {
  }

  /**
   * LRU and LFU, when no heap entry leads to the empty key: a Set ends over the
   * limit if and only if the empty key is stored and alone over it.
   */
  lemma UntrackedLimit(c: Config, s: State, op: Op, s': State)
    requires Inv(s) && op.Set? && Step(c, s, op, s')
    requires c.maxMemory > 0 && UsesHeap(c.policy) && [] !in Tracked(c.policy, AfterWrite(s, op))
    ensures var w := AfterWrite(s, op);
      Used(s'.data) > c.maxMemory <==> [] in w.data && w.data[[]].size > c.maxMemory
  {
    var w := AfterWrite(s, op);
    InvWritten(s, op.key, op.value, op.ttl, op.now, op.later);
    hide Inv, EvictionPath, Written, Without;
    var victims :| EvictedBy(c, w, victims, s');
    EvictedParts(c, w, victims, s');
    EmptyKeySurvives(c, w, victims);
    InvRemoved(w, Elems(victims));
    var m := Removed(w, Elems(victims));
    if Used(s'.data) > c.maxMemory {
      OnlyEmptyKey(c.policy, m);
    }
    if [] in w.data {
      SizesPositive(m);
      UsedSplit(m.data, []);
      UsedPositive(m.data - {[]});
    }
  }

  lemma SizesPositive(s: State)
    requires Inv(s)
    ensures forall k :: k in s.data ==> s.data[k].size >= 100
  {
  }

  lemma UsedPositive(data: Data)
    requires forall k :: k in data ==> data[k].size >= 100
    ensures Used(data) >= 0
  {
    UsedAtLeast(data);
  }

  /** The empty key with the items that rank strictly above it. */
  function Above(p: Policy, data: Data): Data
    requires [] in data
  {
    map k | k in data && (k == [] || RanksBelow(p, data[[]], data[k])) :: data[k]
  }

  /** The items that do not rank below the empty key. */
  function NotBelow(p: Policy, data: Data): Data
    requires [] in data
  {
    map k | k in data && !RanksBelow(p, data[k], data[[]]) :: data[k]
  }

  /** No other item has the rank of the empty key. */
  ghost predicate NoTies(p: Policy, data: Data)
    requires [] in data
  {
    forall k :: k in data && k != [] ==>
      RanksBelow(p, data[k], data[[]]) || RanksBelow(p, data[[]], data[k])
  }

  /** A tracked empty key shields everything above it. */
  lemma AboveSurvives(c: Config, w: State, victims: seq<Str>)
    requires UsesHeap(c.policy) && EvictionPath(c, w, victims)
    requires [] in w.data && [] in Tracked(c.policy, w)
    ensures forall k :: k in Above(c.policy, w.data) ==> k !in victims
  {
    EmptyKeySurvives(c, w, victims);
    forall i | 0 <= i < |victims| ensures victims[i] !in Above(c.policy, w.data) {
      PathAt(c, w, victims, i);
      var m := Removed(w, Elems(victims[..i]));
      assert [] in m.data && [] in Tracked(c.policy, m);
    }
  }

  lemma AboveStays(c: Config, w: State, s': State)
    requires Inv(w) && UsesHeap(c.policy) && Evicted(c, w, s')
    requires [] in w.data && [] in Tracked(c.policy, w)
    ensures Used(Above(c.policy, w.data)) <= Used(s'.data)
  {
    SizesPositive(w);
    hide Inv, EvictionPath, EvictionEnd, RanksBelow, Removed;
    var victims :| EvictedBy(c, w, victims, s');
    EvictedParts(c, w, victims, s');
    AboveSurvives(c, w, victims);
    UsedSubset(Above(c.policy, w.data), s'.data);
  }

  /** Eviction stops over the limit only when nothing ranks below the empty key any more. */
  lemma OnlyNotBelowLeft(c: Config, w: State, s': State)
    requires Inv(w) && UsesHeap(c.policy) && Evicted(c, w, s')
    requires [] in w.data && [] in Tracked(c.policy, w) && Over(c, s')
    ensures Used(s'.data) <= Used(NotBelow(c.policy, w.data))
  {
    SizesPositive(w);
    hide EvictionPath, RanksBelow;
    var victims :| EvictedBy(c, w, victims, s');
    var m := Removed(w, Elems(victims));
    EmptyKeySurvives(c, w, victims);
    assert [] in Tracked(c.policy, m);
    assert Candidate(c.policy, m, []);
    forall k | k in m.data ensures !RanksBelow(c.policy, w.data[k], w.data[[]]) {
      assert k == [] || k in Tracked(c.policy, m);
    }
    UsedSubset(s'.data, NotBelow(c.policy, w.data));
  }

  lemma AboveWithoutTies(p: Policy, data: Data)
    requires [] in data && NoTies(p, data)
    ensures Above(p, data) == NotBelow(p, data)
  {
  }

  /**
   * LRU and LFU, when the empty key has its heap entry: a Set ends over the limit
   * if that key and what ranks above it are over it, and only if that key and what
   * does not rank below it are. Without ties the two are one condition.
   */
  lemma TrackedLimit(c: Config, s: State, op: Op, s': State)
    requires Inv(s) && op.Set? && Step(c, s, op, s')
    requires c.maxMemory > 0 && UsesHeap(c.policy) && [] in Tracked(c.policy, AfterWrite(s, op))
    ensures var w := AfterWrite(s, op);
      && [] in w.data
      && (Used(Above(c.policy, w.data)) > c.maxMemory ==> Used(s'.data) > c.maxMemory)
      && (Used(s'.data) > c.maxMemory ==> Used(NotBelow(c.policy, w.data)) > c.maxMemory)
      && (NoTies(c.policy, w.data) ==>
            (Used(s'.data) > c.maxMemory <==> Used(Above(c.policy, w.data)) > c.maxMemory))
  {
    var w := AfterWrite(s, op);
    InvWritten(s, op.key, op.value, op.ttl, op.now, op.later);
    InvTracked(w);
    hide Inv, Evicted, Written, Above, NotBelow, NoTies;
    AboveStays(c, w, s');
    if Used(s'.data) > c.maxMemory {
      OnlyNotBelowLeft(c, w, s');
    }
    if NoTies(c.policy, w.data) {
      AboveWithoutTies(c.policy, w.data);
    }
  }

  /** Some findable key has the lowest rank. */
  lemma {:induction false} LowestKey(p: Policy, data: Data, keys: set<Str>) returns (v: Str)
    requires keys != {} && keys <= data.Keys
    ensures v in keys && forall k :: k in keys ==> !RanksBelow(p, data[k], data[v])
    decreases |keys|
  {
    v :| v in keys;
    var rest := keys - {v};
    if rest != {} {
      var u := LowestKey(p, data, rest);
      if RanksBelow(p, data[u], data[v]) {
        v := u;
      }
    }
  }

  /** While some key ranks below the empty one, a key below it may go next. */
  lemma CandidateBelow(p: Policy, m: State, k: Str) returns (v: Str)
    requires Inv(m) && UsesHeap(p) && [] in m.data && k in m.data && k != []
    requires !RanksBelow(p, m.data[[]], m.data[k])
    ensures Candidate(p, m, v) && !RanksBelow(p, m.data[[]], m.data[v])
    ensures RanksBelow(p, m.data[k], m.data[[]]) ==> RanksBelow(p, m.data[v], m.data[[]])
    ensures v != []
  {
    v := LowestKey(p, m.data, m.data.Keys - {[]});
  }

  /** When nothing ranks below the empty key, eviction that is still over the limit stops. */
  lemma StopsAtEmptyKey(c: Config, w: State, victims: seq<Str>)
    requires UsesHeap(c.policy) && EvictionPath(c, w, victims)
    requires var m := Removed(w, Elems(victims));
      && Over(c, m) && [] in m.data && [] in Tracked(c.policy, m)
      && (forall k :: k in m.data ==> !RanksBelow(c.policy, m.data[k], m.data[[]]))
    ensures Evicted(c, w, Untracked(c.policy, Removed(w, Elems(victims)), []))
  {
    hide EvictionPath, Removed, RanksBelow, Over;
    assert EvictedBy(c, w, victims, Untracked(c.policy, Removed(w, Elems(victims)), []));
  }

  ghost predicate Spares(victims: seq<Str>, data: Data) {
    forall k :: k in data ==> k !in victims
  }

  lemma SparesSnoc(victims: seq<Str>, data: Data, v: Str)
    requires Spares(victims, data) && v !in data
    ensures Spares(victims + [v], data)
  {
  }

  lemma NotBelowStays(c: Config, w: State, victims: seq<Str>)
    requires Inv(w) && [] in w.data
    requires Spares(victims, NotBelow(c.policy, w.data))
    ensures Used(NotBelow(c.policy, w.data)) <= Used(Removed(w, Elems(victims)).data)
    ensures [] !in victims
  {
    SizesPositive(w);
    assert [] in NotBelow(c.policy, w.data);
    hide Inv, RanksBelow;
    UsedSubset(NotBelow(c.policy, w.data), Removed(w, Elems(victims)).data);
  }

  /** Eviction of keys that rank below the empty one, for as long as there are any. */
  lemma {:induction false} EvictBelow(c: Config, w: State, victims: seq<Str>) returns (s': State)
    requires Inv(w) && UsesHeap(c.policy) && [] in w.data && [] in Tracked(c.policy, w)
    requires EvictionPath(c, w, victims)
    requires Spares(victims, NotBelow(c.policy, w.data))
    requires 0 < c.maxMemory < Used(NotBelow(c.policy, w.data))
    ensures Evicted(c, w, s') && Used(s'.data) > c.maxMemory
    decreases |Removed(w, Elems(victims)).data|
  {
    var m := Removed(w, Elems(victims));
    InvRemoved(w, Elems(victims));
    NotBelowStays(c, w, victims);
    hide EvictionPath, Inv, Without, Evicted, RanksBelow, Candidate, NotBelow, UsesHeap, Spares;
    if k :| k in m.data && RanksBelow(c.policy, m.data[k], m.data[[]]) {
      var v := VictimBelow(c.policy, w, victims, k);
      PathSnoc(c, w, victims, v);
      PathShrinks(w, victims, v);
      SparesSnoc(victims, NotBelow(c.policy, w.data), v);
      s' := EvictBelow(c, w, victims + [v]);
    } else {
      StopsAtEmptyKey(c, w, victims);
      s' := Untracked(c.policy, m, []);
    }
  }

  lemma VictimBelow(p: Policy, w: State, victims: seq<Str>, k: Str) returns (v: Str)
    requires Inv(w) && UsesHeap(p) && [] in w.data && [] !in victims
    requires var m := Removed(w, Elems(victims)); k in m.data && RanksBelow(p, m.data[k], m.data[[]])
    ensures v in Removed(w, Elems(victims)).data && Candidate(p, Removed(w, Elems(victims)), v)
    ensures v != [] && v !in NotBelow(p, w.data)
  {
    var m := Removed(w, Elems(victims));
    InvRemoved(w, Elems(victims));
    hide Inv, Without, Candidate, RanksBelow;
    RankIsStrict(p, m.data[k], m.data[[]]);
    v := CandidateBelow(p, m, k);
    CandidateStored(p, m, v);
  }

  lemma CandidateStored(p: Policy, m: State, v: Str)
    requires Candidate(p, m, v)
    ensures v in m.data
  {
  }

  lemma RankIsStrict(p: Policy, a: Item, b: Item)
    requires RanksBelow(p, a, b)
    ensures a != b && !RanksBelow(p, b, a)
  {
  }

  lemma InvTracked(m: State)
    requires Inv(m)
    ensures TrackInv(m.data, m.lru) && TrackInv(m.data, m.lfu)
  {
  }

  /** Eviction of keys that do not rank above the empty one, until the limit is met. */
  lemma {:induction false} EvictNotAbove(c: Config, w: State, victims: seq<Str>) returns (s': State)
    requires Inv(w) && UsesHeap(c.policy) && [] in w.data && [] in Tracked(c.policy, w)
    requires EvictionPath(c, w, victims)
    requires Used(Above(c.policy, w.data)) <= c.maxMemory && c.maxMemory > 0
    ensures Evicted(c, w, s') && Used(s'.data) <= c.maxMemory
    decreases |Removed(w, Elems(victims)).data|
  {
    var m := Removed(w, Elems(victims));
    InvRemoved(w, Elems(victims));
    SizesPositive(w);
    EmptyKeySurvives(c, w, victims);
    hide EvictionPath, Inv, Without, RanksBelow, Candidate;
    if !Over(c, m) {
      s' := m;
      assert EvictedBy(c, w, victims, s');
    } else {
      if forall k :: k in m.data ==> k in Above(c.policy, w.data) {
        UsedSubset(m.data, Above(c.policy, w.data));
        assert false;
      }
      var k :| k in m.data && k !in Above(c.policy, w.data);
      var v := CandidateBelow(c.policy, m, k);
      PathSnoc(c, w, victims, v);
      PathShrinks(w, victims, v);
      s' := EvictNotAbove(c, w, victims + [v]);
    }
  }

  /**
   * Both conditions are exact: ties are resolved by the shape of the heap, and some
   * choice among them ends over the limit, or within it, whenever the conditions of
   * `TrackedLimit` leave that open.
   */
  lemma TrackedLimitTight(c: Config, s: State, op: Op)
    requires Inv(s) && op.Set? && c.maxMemory > 0 && UsesHeap(c.policy)
    requires [] in Tracked(c.policy, AfterWrite(s, op))
    ensures var w := AfterWrite(s, op);
      && [] in w.data
      && ((exists s' :: Step(c, s, op, s') && Used(s'.data) > c.maxMemory)
          <==> Used(NotBelow(c.policy, w.data)) > c.maxMemory)
      && ((forall s' :: Step(c, s, op, s') ==> Used(s'.data) > c.maxMemory)
          <==> Used(Above(c.policy, w.data)) > c.maxMemory)
  {
    var w := AfterWrite(s, op);
    InvWritten(s, op.key, op.value, op.ttl, op.now, op.later);
    InvTracked(w);
    PathEmpty(c, w);
    hide Inv, Written, EvictionPath, Evicted, RanksBelow;
    forall s' | Step(c, s, op, s')
      ensures Used(s'.data) > c.maxMemory ==> Used(NotBelow(c.policy, w.data)) > c.maxMemory
      ensures Used(Above(c.policy, w.data)) > c.maxMemory ==> Used(s'.data) > c.maxMemory
    {
      TrackedLimit(c, s, op, s');
    }
    if Used(NotBelow(c.policy, w.data)) > c.maxMemory {
      var s' := EvictBelow(c, w, []);
      assert Step(c, s, op, s');
    }
    if Used(Above(c.policy, w.data)) <= c.maxMemory {
      var s' := EvictNotAbove(c, w, []);
      assert Step(c, s, op, s');
    }
  }

  /**
   * In a regular store, a regular Set ends within the limit under every policy
   * but volatile-random, so at most one key per hundred bytes of limit is left.
   */
  lemma RegularLimit(c: Config, s: State, op: Op, s': State)
    requires Inv(s) && Regular(s) && op.Set? && RegularOp(op) && Step(c, s, op, s')
    requires c.maxMemory > 0 && c.policy != VolatileRandom
    ensures Used(s'.data) <= c.maxMemory
    ensures |s'.data| <= c.maxMemory / 100
  {
    InvStep(c, s, op, s');
    if UsesHeap(c.policy) {
      InvWritten(s, op.key, op.value, op.ttl, op.now, op.later);
      UntrackedLimit(c, s, op, s');
    } else {
      LimitExact(c, s, op, s');
      var w := AfterWrite(s, op);
      InvWritten(s, op.key, op.value, op.ttl, op.now, op.later);
      assert Pinned(c.policy, w) == map[];
    }
    UsedAtLeast(s'.data);
  }

  lemma LookedSize(s: State, key: Str, now: int)
    requires forall k :: k in s.data ==> s.data[k].size >= 100
    ensures Used(Looked(s, key, now).data) <= Used(s.data)
  {
    hide Without;
    var data := Looked(s, key, now).data;
    if key in data {
      UsedSplit(s.data, key);
      UsedSplit(data, key);
      assert data - {key} == s.data - {key};
    } else {
      UsedSubset(data, s.data);
    }
  }

  /** Lookups, deletions and expiry do not add to the memory in use. */
  lemma NoGrowth(c: Config, s: State, op: Op, s': State)
    requires Inv(s) && Step(c, s, op, s') && !op.Set? && !op.Restore?
    ensures Used(s'.data) <= Used(s.data)
  {
    SizesPositive(s);
    hide Inv, Without;
    match op
    case Get(key, now) => LookedSize(s, key, now);
    case Delete(key) => UsedSubset(s'.data, s.data);
    case ActiveExpire(now) =>
      var gone, n :| SweptBy(s, now, gone, n, s');
      UsedSubset(s'.data, s.data);
  }

  /**
   * The limit over whole runs: in a regular run whose restored snapshots fit, no
   * state is ever over the limit, under every policy but volatile-random.
   */
  lemma {:induction false} AlwaysWithinLimit(c: Config, ops: seq<Op>, states: seq<State>, i: nat)
    requires Run(c, ops, states) && i < |states| && (forall op :: op in ops ==> RegularOp(op))
    requires c.maxMemory > 0 && c.policy != VolatileRandom
    requires forall j :: 0 <= j < |ops| && ops[j].Restore? ==> Used(states[j + 1].data) <= c.maxMemory
    ensures Used(states[i].data) <= c.maxMemory
    decreases i
  {
    hide Step, Inv, Regular, RegularOp;
    if i > 0 {
      var s, op, s' := states[i - 1], ops[i - 1], states[i];
      assert op in ops;
      AlwaysWithinLimit(c, ops, states, i - 1);
      InvRun(c, ops, states, i - 1);
      if op.Set? {
        RegularLimit(c, s, op, s');
      } else if !op.Restore? {
        NoGrowth(c, s, op, s');
      }
    }
  }

  /**
   * Why the empty key is excepted: stored alone it cannot be evicted by FIFO, LRU
   * or LFU, so this Set of 101 bytes under a limit of 100 stays over the limit.
   */
  lemma EmptyKeyStaysOver(p: Policy, s': State)
    requires p == NoEviction || UsesHeap(p)
    requires Step(Config(100, p), EMPTY, Set([], [65], 0, 0, 0), s')
    ensures Used(s'.data) == 101
  {
    var c, w := Config(100, p), Written(EMPTY, [], [65], 0, 0, 0);
    var victims :| EvictedBy(c, w, victims, s');
    UsedPut(EMPTY.data, [], w.data[[]]);
    assert EMPTY.data - {[]} == EMPTY.data;
    PathEmpty(c, w);
    if victims != [] {
      assert victims[..0] == [];
      PathAt(c, w, victims, 0);
    }
    EvictedParts(c, w, victims, s');
  }

  /**
   * Why negative TTLs are excepted: the key is stored without a deadline but not
   * queued, so FIFO cannot evict it and 102 bytes stay under a limit of 100.
   */
  lemma NegativeTtlStaysOver(s': State)
    requires Step(Config(100, NoEviction), EMPTY, Set([97], [65], -1, 0, 0), s')
    ensures Used(s'.data) == 102 && s'.fifo == [] && s'.data[[97]].expiresAt == 0
  {
    var c, w := Config(100, NoEviction), Written(EMPTY, [97], [65], -1, 0, 0);
    var victims :| EvictedBy(c, w, victims, s');
    UsedPut(EMPTY.data, [97], w.data[[97]]);
    assert EMPTY.data - {[97]} == EMPTY.data;
    PathEmpty(c, w);
    if victims != [] {
      assert victims[..0] == [];
      PathAt(c, w, victims, 0);
    }
    EvictedParts(c, w, victims, s');
  }

  /** Volatile-random: what is still over the limit has no TTL. */
  lemma VolatileExcess(c: Config, s: State, op: Op, s': State)
    requires Inv(s) && op.Set? && Step(c, s, op, s')
    requires c.policy == VolatileRandom && 0 < c.maxMemory < Used(s'.data)
    ensures forall k :: k in s'.data ==> s'.data[k].expiresAt == 0
  {
    var victims :| EvictedBy(c, AfterWrite(s, op), victims, s');
  }

  // ---------- The choice of victims ----------

  ghost predicate WasEvicted(w: State, s': State, k: Str) {
    k in w.data && k !in s'.data
  }

  /** The survivors keep their items, and nothing goes beyond what the limit asks for. */
  lemma EvictionNecessary(c: Config, w: State, s': State)
    requires Inv(w) && Evicted(c, w, s')
    ensures forall k :: k in s'.data ==> k in w.data && s'.data[k] == w.data[k]
    ensures (exists k :: WasEvicted(w, s', k)) ==>
      exists last :: WasEvicted(w, s', last) && Used(s'.data) + w.data[last].size > c.maxMemory > 0
  {
    hide EvictionPath, EvictionEnd, Candidate, Inv;
    var victims :| EvictedBy(c, w, victims, s');
    EvictedParts(c, w, victims, s');
    if k :| WasEvicted(w, s', k) {
      assert k in victims;
      var n := |victims| - 1;
      var m, last := Removed(w, Elems(victims[..n])), victims[n];
      PathAt(c, w, victims, n);
      assert victims == victims[..n] + [last];
      RemovedSnoc(w, victims[..n], last);
      UsedSplit(m.data, last);
      assert s'.data == m.data - {last};
      assert WasEvicted(w, s', last);
    }
  }

  /**
   * Heaps with stale entries choose like a full scan: no survivor (the empty key
   * aside) ranks below an evicted key.
   */
  lemma HeapEvictsLowest(c: Config, w: State, s': State, v: Str, k: Str)
    requires Inv(w) && Evicted(c, w, s') && UsesHeap(c.policy)
    requires WasEvicted(w, s', v) && k in s'.data && k != []
    ensures k in w.data && !RanksBelow(c.policy, w.data[k], w.data[v])
    ensures c.policy == AllKeysLru ==> w.data[v].lastAccess <= w.data[k].lastAccess
    ensures c.policy == AllKeysLfu ==>
      || w.data[v].freq < w.data[k].freq
      || (w.data[v].freq == w.data[k].freq && w.data[v].lastAccess <= w.data[k].lastAccess)
  {
    hide EvictionPath, EvictionEnd;
    var victims :| EvictedBy(c, w, victims, s');
    EvictedParts(c, w, victims, s');
    assert v in victims && k !in victims;
    var i :| 0 <= i < |victims| && victims[i] == v;
    PathAt(c, w, victims, i);
    var m := Removed(w, Elems(victims[..i]));
    assert k in Tracked(c.policy, m) && k in m.data;
  }

  /** One FIFO victim: the oldest queued key, or a key with a TTL when none is queued. */
  lemma FifoVictim(m: State, v: Str)
    requires QueueInv(m.data, m.fifo) && Candidate(NoEviction, m, v)
    ensures v in m.data
    ensures m.fifo != [] ==> v == m.fifo[0] && Removed(m, {v}).fifo == m.fifo[1..]
    ensures m.fifo == [] ==> m.data[v].expiresAt > 0 && Removed(m, {v}).fifo == []
  {
    if m.fifo != [] {
      WithoutHead(m.fifo);
    }
  }

  /** The first `i` FIFO victims: queue order first, then keys with a TTL. */
  lemma {:induction false} FifoVictims(c: Config, w: State, victims: seq<Str>, i: nat)
    requires Inv(w) && c.policy == NoEviction && EvictionPath(c, w, victims) && i <= |victims|
    ensures Removed(w, Elems(victims[..i])).fifo == w.fifo[if i < |w.fifo| then i else |w.fifo|..]
    ensures forall j :: 0 <= j < i && j < |w.fifo| ==> victims[j] == w.fifo[j]
    ensures forall j :: |w.fifo| <= j < i ==> victims[j] in w.data && w.data[victims[j]].expiresAt > 0
  {
    hide EvictionPath, Inv, QueueInv, Candidate, Without, Over;
    if i == 0 {
      PathEmpty(c, w);
      assert victims[..0] == [];
    } else {
      FifoVictims(c, w, victims, i - 1);
      var front, v := victims[..i - 1], victims[i - 1];
      var m := Removed(w, Elems(front));
      assert victims[..i] == front + [v];
      RemovedSnoc(w, front, v);
      PathAt(c, w, victims, i - 1);
      InvRemoved(w, Elems(front));
      InvQueue(m);
      FifoVictim(m, v);
    }
  }

  /**
   * FIFO eviction removes a prefix of the queue, and a key with a TTL only after
   * the whole queue.
   */
  lemma FifoEvictsOldest(c: Config, w: State, s': State) returns (n: nat)
    requires Inv(w) && Evicted(c, w, s') && c.policy == NoEviction
    ensures n <= |w.fifo| && s'.fifo == w.fifo[n..]
    ensures forall k :: k in w.fifo[..n] ==> WasEvicted(w, s', k)
    ensures forall k :: WasEvicted(w, s', k) ==>
      k in w.fifo[..n] || (n == |w.fifo| && w.data[k].expiresAt > 0)
  {
    hide EvictionPath, EvictionEnd, Inv;
    InvQueue(w);
    var victims :| EvictedBy(c, w, victims, s');
    EvictedParts(c, w, victims, s');
    assert victims[..|victims|] == victims;
    FifoVictims(c, w, victims, |victims|);
    n := if |victims| < |w.fifo| then |victims| else |w.fifo|;
    forall k | k in w.fifo[..n] ensures WasEvicted(w, s', k) {
      var j :| 0 <= j < n && w.fifo[j] == k;
      assert victims[j] in victims;
    }
    forall k | WasEvicted(w, s', k)
      ensures k in w.fifo[..n] || (n == |w.fifo| && w.data[k].expiresAt > 0)
    {
      assert k in victims;
      var j :| 0 <= j < |victims| && victims[j] == k;
      if j < |w.fifo| {
        assert w.fifo[..n][j] == k;
      }
    }
  }

  // ---------- What the queue order means ----------

  function KeysOf(entries: seq<SnapshotEntry>): seq<Str> {
    if entries == [] then []
    else KeysOf(entries[..|entries| - 1]) + [entries[|entries| - 1].key]
  }

  /** The keys written so far, by their most recent Set or position in the last restore. */
  function Recency(ops: seq<Op>): seq<Str> {
    if ops == [] then []
    else
      var before, op := Recency(ops[..|ops| - 1]), ops[|ops| - 1];
      match op
      case Set(key, _, _, _, _) => Without(before, {key}) + [key]
      case Restore(entries, _) => KeysOf(entries)
      case _ => before
  }

  /** `q` is `all` with some keys left out. */
  ghost predicate Sublist(q: seq<Str>, all: seq<Str>) {
    exists gone :: q == Without(all, gone)
  }

  lemma SublistWithout(q: seq<Str>, all: seq<Str>, more: set<Str>)
    requires Sublist(q, all)
    ensures Sublist(Without(q, more), all)
  {
    var gone :| q == Without(all, gone);
    WithoutTwice(all, gone, more);
  }

  lemma SublistWritten(q: seq<Str>, all: seq<Str>, key: Str)
    requires Sublist(q, all)
    ensures Sublist(Without(q, {key}), Without(all, {key}) + [key])
    ensures Sublist(Without(q, {key}) + [key], Without(all, {key}) + [key])
  {
    var gone :| q == Without(all, gone);
    WithoutTwice(all, gone, {key});
    WithoutTwice(all, {key}, gone + {key});
    WithoutTwice(all, {key}, gone - {key});
    assert {key} + (gone + {key}) == gone + {key} == {key} + (gone - {key});
    WithoutSnoc(Without(all, {key}), key, gone + {key});
    WithoutSnoc(Without(all, {key}), key, gone - {key});
    assert Without(q, {key}) == Without(Without(all, {key}) + [key], gone + {key});
    assert Without(q, {key}) + [key] == Without(Without(all, {key}) + [key], gone - {key});
  }

  lemma {:induction false} KeysOfMember(entries: seq<SnapshotEntry>, k: Str)
    requires k in KeysOf(entries)
    ensures exists e :: e in entries && e.key == k
  {
    var last := entries[|entries| - 1];
    if k != last.key {
      KeysOfMember(entries[..|entries| - 1], k);
    } else {
      assert last in entries;
    }
  }

  lemma {:induction false} SublistLoaded(s: State, entries: seq<SnapshotEntry>, now: nat)
    requires DistinctKeys(entries)
    ensures Sublist(Loaded(s, entries, now).fifo, KeysOf(entries))
    decreases |entries|
  {
    if entries == [] {
      assert [] == Without(KeysOf(entries), {});
    } else {
      var front, e := entries[..|entries| - 1], entries[|entries| - 1];
      SublistLoaded(s, front, now);
      var q, all := Loaded(s, front, now).fifo, KeysOf(front);
      var gone :| q == Without(all, gone);
      if e.key in all {
        KeysOfMember(front, e.key);
        assert false;
      }
      WithoutDisjoint(all, {e.key});
      SublistWritten(q, all, e.key);
      WithoutMember(all, gone);
      WithoutDisjoint(q, {e.key});
    }
  }

  /** In every run the queue is in order of the most recent write. */
  lemma {:induction false} QueueByRecency(c: Config, ops: seq<Op>, states: seq<State>)
    requires Run(c, ops, states)
    ensures Sublist(states[|ops|].fifo, Recency(ops))
    decreases |ops|
  {
    if ops == [] {
      assert [] == Without(Recency(ops), {});
    } else {
      var n := |ops| - 1;
      hide Step;
      QueueByRecency(c, ops[..n], states[..n + 1]);
      RecencyStep(c, states[n], ops[n], states[n + 1], ops[..n]);
      assert ops[..n] + [ops[n]] == ops;
    }
  }

  lemma SublistEvicted(c: Config, w: State, s': State, all: seq<Str>)
    requires Evicted(c, w, s') && Sublist(w.fifo, all)
    ensures Sublist(s'.fifo, all)
  {
    hide EvictionPath, EvictionEnd, Sublist;
    var victims :| EvictedBy(c, w, victims, s');
    EvictedParts(c, w, victims, s');
    SublistWithout(w.fifo, all, Elems(victims));
  }

  lemma RecencyStep(c: Config, s: State, op: Op, s': State, before: seq<Op>)
    requires Allowed(op) && Step(c, s, op, s') && Sublist(s.fifo, Recency(before))
    ensures Sublist(s'.fifo, Recency(before + [op]))
  {
    assert (before + [op])[..|before|] == before;
    match op
    case Set(key, value, ttl, now, later) =>
      hide Evicted, Without;
      SublistWritten(s.fifo, Recency(before), key);
      SublistEvicted(c, Written(s, key, value, ttl, now, later), s', Recency(before + [op]));
    case Get(key, _) => SublistWithout(s.fifo, Recency(before), {key});
    case Delete(key) => SublistWithout(s.fifo, Recency(before), {key});
    case ActiveExpire(now) =>
      var gone, n :| SweptBy(s, now, gone, n, s');
      SublistWithout(s.fifo, Recency(before), gone);
    case Restore(entries, now) => SublistLoaded(s, entries, now);
  }
}
