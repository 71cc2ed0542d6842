/** How often and when keys were used: what the frequencies and times that eviction compares mean. */
module Usages {
  import opened Bytes
  import opened StoreModel
  import opened StoreFacts
  import opened StoreInvariant
  import opened StoreEviction
  import opened TimedMap

  /** Uses since the last write, that write included, and the time of the latest. */
  datatype Use = Use(count: nat, last: int)

  /** A Get that finds a string whose deadline has not passed. */
  predicate IsHit(s: State, op: Op) {
    op.Get? && op.key in s.data && s.data[op.key].kind == TypeString
    && !(0 < s.data[op.key].expiresAt < op.now)
  }

  /** The uses of a key in a run: a Set or a restore begins anew, a hit adds one. */
  ghost function UseOf(ops: seq<Op>, states: seq<State>, key: Str): Use
    requires |states| == |ops| + 1
  {
    if ops == [] then Use(0, 0)
    else
      var n := |ops| - 1;
      NextUse(UseOf(ops[..n], states[..n + 1], key), states[n], ops[n], key)
  }

  function NextUse(use: Use, s: State, op: Op, key: Str): Use {
    if op.Restore? then Use(1, op.now)
    else if op.Set? && op.key == key then Use(1, op.now)
    else if IsHit(s, op) && op.key == key then Use(use.count + 1, op.now)
    else use
  }

  ghost predicate UsedAs(s: State, key: Str, use: Use) {
    key in s.data ==> s.data[key].freq == use.count && s.data[key].lastAccess == use.last
  }

  lemma {:induction false} LoadedUse(s: State, entries: seq<SnapshotEntry>, now: nat, key: Str)
    ensures UsedAs(Loaded(s, entries, now), key, Use(1, now))
    decreases |entries|
  {
    if entries != [] {
      LoadedUse(s, entries[..|entries| - 1], now, key);
    }
  }

  lemma UseStep(c: Config, s: State, op: Op, s': State, key: Str, use: Use)
    requires Step(c, s, op, s') && UsedAs(s, key, use)
    ensures UsedAs(s', key, NextUse(use, s, op, key))
  {
    match op
    case Set(_, _, _, _, _) =>
      hide EvictionPath, EvictionEnd, Without;
      var victims :| EvictedBy(c, AfterWrite(s, op), victims, s');
      EvictedParts(c, AfterWrite(s, op), victims, s');
    case Restore(entries, now) => LoadedUse(s, entries, now, key);
    case ActiveExpire(now) =>
      hide Without, Used;
      var gone, n :| SweptBy(s, now, gone, n, s');
    case Get(_, _) => hide Without;
    case Delete(_) => hide Without;
  }

  /** In every run a frequency is one plus the hits since the write, and an access time that of the latest use. */
  lemma {:induction false} ItemsAreUsedAs(c: Config, ops: seq<Op>, states: seq<State>, key: Str)
    requires Run(c, ops, states)
    ensures |states| == |ops| + 1 && UsedAs(states[|ops|], key, UseOf(ops, states, key))
    decreases |ops|
  {
    hide Run, Step, NextUse;
    if ops == [] {
      NothingStored(c, states);
    } else {
      var n := |ops| - 1;
      RunFront(c, ops, states);
      ItemsAreUsedAs(c, ops[..n], states[..n + 1], key);
      UseStep(c, states[n], ops[n], states[n + 1], key, UseOf(ops[..n], states[..n + 1], key));
    }
  }

  /** The use of a key that a Set finds: its own key has just been used by it. */
  ghost function UseAt(ops: seq<Op>, states: seq<State>, op: Op, key: Str): Use
    requires |states| == |ops| + 1 && op.Set?
  {
    if key == op.key then Use(1, op.now) else UseOf(ops, states, key)
  }

  /**
   * What LRU and LFU evict, in every run: at a Set no evicted key was used later than a
   * surviving one, respectively more often since it was written, or as often and later.
   */
  lemma EvictsLeastUsed(c: Config, ops: seq<Op>, states: seq<State>, op: Op, s': State, v: Str, k: Str)
    requires Run(c, ops, states) && op.Set? && Step(c, states[|ops|], op, s') && UsesHeap(c.policy)
    requires v in AfterWrite(states[|ops|], op).data && v !in s'.data && k in s'.data && k != []
    ensures |states| == |ops| + 1
    ensures var a, b := UseAt(ops, states, op, v), UseAt(ops, states, op, k);
      if c.policy == AllKeysLru then a.last <= b.last
      else a.count < b.count || (a.count == b.count && a.last <= b.last)
  {
    ItemsAreUsedAs(c, ops, states, v);
    ItemsAreUsedAs(c, ops, states, k);
    InvRun(c, ops, states, |ops|);
    var s := states[|ops|];
    InvWritten(s, op.key, op.value, op.ttl, op.now, op.later);
    hide Run, Inv, Evicted, Without, UseOf;
    HeapEvictsLowest(c, AfterWrite(s, op), s', v, k);
  }
}
