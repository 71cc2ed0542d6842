/**
 * Replay of the log on a new server. Two states with the same contents and queue, and
 * without deadlines, stay alike through a run and the replay of its writes: where
 * nothing is evicted, and under FIFO also where keys are, because there the victims
 * depend on contents and queue alone.
 */
module Replays {
  import opened Bytes
  import opened StoreModel
  import opened StoreFacts
  import opened StoreInvariant
  import opened StoreEviction
  import opened TimedMap
  import opened Restart

  /** The same contents without deadlines, and the same queue. */
  ghost predicate Alike(a: State, b: State) {
    && Inv(a) && Inv(b)
    && Cells(a) == Cells(b) && a.fifo == b.fifo
    && NoDeadline(a)
  }

  ghost predicate NoDeadline(s: State) {
    forall k :: k in s.data ==> s.data[k].expiresAt == 0
  }

  lemma AlikeSymmetric(a: State, b: State)
    requires Alike(a, b)
    ensures Alike(b, a)
  {
    hide Inv;
    forall k | k in b.data ensures b.data[k].expiresAt == 0 {
      assert k in Cells(b) && k in Cells(a) && Cells(b)[k] == CellOf(a.data[k]);
    }
  }

  lemma AlikeRemoved(a: State, b: State, gone: set<Str>)
    requires Alike(a, b)
    ensures Alike(Removed(a, gone), Removed(b, gone))
  {
    InvRemoved(a, gone);
    InvRemoved(b, gone);
    hide Inv, Without;
    CellsRemoved(a, gone);
    CellsRemoved(b, gone);
  }

  lemma CellsRemoved(s: State, gone: set<Str>)
    ensures Cells(Removed(s, gone)) == Cells(s) - gone
  {
    hide Without;
  }

  lemma AlikeOver(c: Config, a: State, b: State)
    requires Alike(a, b)
    ensures Over(c, a) <==> Over(c, b)
  {
    CellsWeight(a);
    CellsWeight(b);
  }

  lemma AlikeWritten(a: State, b: State, op: Op, op': Op)
    requires Alike(a, b) && op.Set? && op.ttl == 0
    requires op'.Set? && op'.ttl == 0 && op.key == op'.key && op.value == op'.value
    ensures Alike(AfterWrite(a, op), AfterWrite(b, op'))
  {
    InvWritten(a, op.key, op.value, op.ttl, op.now, op.later);
    InvWritten(b, op'.key, op'.value, op'.ttl, op'.now, op'.later);
    CellsWritten(a, op);
    CellsWritten(b, op');
    hide Inv, Without, Cells;
  }

  /** Without deadlines the victims are the head of the queue. */
  lemma QueueVictims(c: Config, s: State, vs: seq<Str>)
    requires c.policy == NoEviction && Inv(s) && NoDeadline(s) && EvictionPath(c, s, vs)
    ensures |vs| <= |s.fifo| && vs == s.fifo[..|vs|]
  {
    hide EvictionPath, Inv, Without, Over;
    var beyond := if |s.fifo| < |vs| then vs[|s.fifo|] else [];
    FifoVictims(c, s, vs, |vs|);
  }

  /** Eviction that has gone through less than the queue has met the limit. */
  lemma EndWithin(c: Config, s: State, vs: seq<Str>, s': State)
    requires c.policy == NoEviction && Inv(s) && EvictedBy(c, s, vs, s') && |vs| < |s.fifo|
    ensures !Over(c, Removed(s, Elems(vs)))
  {
    hide EvictionPath, Inv, Without, Over;
    assert vs[..|vs|] == vs;
    FifoVictims(c, s, vs, |vs|);
  }

  /** Of two states alike neither stops evicting before the other. */
  lemma NoEarlierEnd(c: Config, a: State, us: seq<Str>, a': State, b: State, vs: seq<Str>)
    requires c.policy == NoEviction && Alike(a, b)
    requires EvictedBy(c, a, us, a') && EvictionPath(c, b, vs)
    ensures |us| >= |vs|
  {
    hide EvictionPath, EvictionEnd, Inv, Cells, Without, Over;
    AlikeSymmetric(a, b);
    QueueVictims(c, a, us);
    QueueVictims(c, b, vs);
    if |us| < |vs| {
      EndWithin(c, a, us, a');
      AlikeRemoved(a, b, Elems(us));
      AlikeOver(c, Removed(a, Elems(us)), Removed(b, Elems(us)));
      assert vs[..|us|] == us;
      PathAt(c, b, vs, |us|);
    }
  }

  /** States alike evict the same keys. */
  lemma SameVictims(c: Config, a: State, a': State, b: State, b': State)
    requires c.policy == NoEviction && Alike(a, b) && Evicted(c, a, a') && Evicted(c, b, b')
    ensures Alike(a', b')
  {
    hide EvictionPath, Inv, Cells, Without, Over;
    var us :| EvictedBy(c, a, us, a');
    var vs :| EvictedBy(c, b, vs, b');
    AlikeSymmetric(a, b);
    NoEarlierEnd(c, a, us, a', b, vs);
    NoEarlierEnd(c, b, vs, b', a, us);
    QueueVictims(c, a, us);
    QueueVictims(c, b, vs);
    AlikeRemoved(a, b, Elems(us));
  }

  // ---------- Policies that evict nothing ----------

  /** Without deadlines volatile-random has no candidates. */
  lemma VolatileKeeps(c: Config, w: State, s': State)
    requires c.policy == VolatileRandom && NoDeadline(w) && Evicted(c, w, s')
    ensures s' == w
  {
    var victims :| EvictedBy(c, w, victims, s');
    PathEmpty(c, w);
    if victims != [] {
      assert victims[..0] == [];
      PathAt(c, w, victims, 0);
    }
  }

  /** An eviction that removes no key has no victims. */
  lemma NoVictims(c: Config, w: State, s': State)
    requires Evicted(c, w, s') && s'.data == w.data
    ensures EvictedBy(c, w, [], s')
  {
    hide EvictionPath, EvictionEnd;
    var victims :| EvictedBy(c, w, victims, s');
    EvictedParts(c, w, victims, s');
    if victims != [] {
      assert victims[0] in victims;
      assert victims[0] in s'.data;
    }
  }

  /**
   * Over the limit, all-keys-random always evicts something, and so do LRU and LFU
   * unless the empty key is stored.
   */
  lemma KeepsOnlyBelow(c: Config, w: State, s': State)
    requires Inv(w) && Evicted(c, w, s') && s'.data == w.data
    requires c.policy == AllKeysRandom || (UsesHeap(c.policy) && [] !in w.data)
    ensures !Over(c, w)
  {
    NoVictims(c, w, s');
    PathEmpty(c, w);
    hide EvictionPath, Evicted;
    if Over(c, w) && UsesHeap(c.policy) {
      OnlyEmptyKey(c.policy, w);
    }
  }

  /** The policies under which a Set without TTL does the same to states alike. */
  ghost predicate Repeats(c: Config, w: State) {
    c.policy == NoEviction || c.policy == VolatileRandom || !Over(c, w)
  }

  lemma SameEviction(c: Config, a: State, a': State, b: State, b': State)
    requires Alike(a, b) && Repeats(c, a) && Evicted(c, a, a') && Evicted(c, b, b')
    ensures Alike(a', b')
  {
    hide Evicted, Inv, Cells, NoDeadline;
    if c.policy == NoEviction {
      SameVictims(c, a, a', b, b');
    } else if c.policy == VolatileRandom {
      AlikeSymmetric(a, b);
      VolatileKeeps(c, a, a');
      VolatileKeeps(c, b, b');
    } else {
      AlikeOver(c, a, b);
      NoEvictionBelowLimit(c, a, a');
      NoEvictionBelowLimit(c, b, b');
    }
  }

  lemma AlikeSet(c: Config, a: State, op: Op, a': State, b: State, op': Op, b': State)
    requires Alike(a, b) && op.Set? && op.ttl == 0 && Repeats(c, AfterWrite(a, op))
    requires op'.Set? && op'.ttl == 0 && op.key == op'.key && op.value == op'.value
    requires Step(c, a, op, a') && Step(c, b, op', b')
    ensures Alike(a', b')
    ensures Over(c, AfterWrite(a, op)) <==> Over(c, AfterWrite(b, op'))
  {
    hide Alike, Written, Evicted, Over, Repeats;
    AlikeWritten(a, b, op, op');
    AlikeOver(c, AfterWrite(a, op), AfterWrite(b, op'));
    SameEviction(c, AfterWrite(a, op), a', AfterWrite(b, op'), b');
  }

  lemma GetKeeps(a: State, key: Str, now: int)
    requires NoDeadline(a)
    ensures var a' := Looked(a, key, now);
      Cells(a') == Cells(a) && a'.fifo == a.fifo && NoDeadline(a')
  {
  }

  lemma TickKeeps(a: State, now: int, a': State)
    requires NoDeadline(a) && Swept(a, now, a')
    ensures Cells(a') == Cells(a) && a'.fifo == a.fifo && NoDeadline(a')
  {
    var gone, n :| SweptBy(a, now, gone, n, a');
    assert gone == {};
    RemovedNothing(a);
  }

  /** Reads and expiry ticks change nothing that the replay does not have. */
  lemma AlikeOther(c: Config, a: State, op: Op, a': State, b: State)
    requires Alike(a, b) && (op.Get? || op.ActiveExpire?) && Step(c, a, op, a')
    ensures Alike(a', b)
  {
    InvStep(c, a, op, a');
    hide Inv, Cells, NoDeadline, Looked, Swept;
    if op.ActiveExpire? {
      TickKeeps(a, op.now, a');
    } else {
      GetKeeps(a, op.key, op.now);
    }
  }

  // ---------- Runs and their replays ----------

  ghost predicate Repeatable(c: Config, ops: seq<Op>, states: seq<State>)
    requires |states| == |ops| + 1
  {
    c.policy == NoEviction || c.policy == VolatileRandom || NeverOver(c, ops, states)
  }

  /** A run and a replay of its log end alike, and the replay fits where the run did. */
  lemma {:induction false} ReplayAlike(c: Config, ops: seq<Op>, states: seq<State>,
                                       ops': seq<Op>, states': seq<State>)
    requires Run(c, ops, states) && Repeatable(c, ops, states) && (forall op :: op in ops ==> Logging(op))
    requires Run(c, ops', states') && IsReplay(ops', Writes(ops))
    ensures |states| == |ops| + 1 && |states'| == |ops'| + 1
    ensures Alike(states[|ops|], states'[|ops'|])
    ensures NeverOver(c, ops, states) ==> NeverOver(c, ops', states')
    decreases |ops|
  {
    hide Run, Step, Alike, IsReplay, Writes, NeverOver, Over, Written;
    if ops == [] {
      AlikeStart(c, states, ops', states');
    } else {
      var n := |ops| - 1;
      WritesPrefix(ops);
      RunFront(c, ops, states);
      if NeverOver(c, ops, states) {
        NeverOverPrefix(c, ops, states, n);
      }
      assert ops[n] in ops;
      assert forall op :: op in ops[..n] ==> op in ops;
      if ops[n].Set? {
        ReplayFront(ops', Writes(ops));
        RunFront(c, ops', states');
        var m := |ops'| - 1;
        assert Writes(ops)[..|Writes(ops[..n])|] == Writes(ops[..n]);
        ReplayAlike(c, ops[..n], states[..n + 1], ops'[..m], states'[..m + 1]);
        AlikeSet(c, states[n], ops[n], states[n + 1], states'[m], ops'[m], states'[m + 1]);
        if NeverOver(c, ops, states) {
          NeverOverSnoc(c, ops', states');
        }
      } else {
        assert Writes(ops[..n]) + [] == Writes(ops[..n]);
        ReplayAlike(c, ops[..n], states[..n + 1], ops', states');
        AlikeOther(c, states[n], ops[n], states[n + 1], states'[|ops'|]);
      }
    }
  }

  lemma AlikeStart(c: Config, states: seq<State>, ops': seq<Op>, states': seq<State>)
    requires Run(c, [], states) && Run(c, ops', states') && IsReplay(ops', Writes([]))
    ensures |states| == 1 && |states'| == 1 && ops' == [] && Alike(states[0], states'[0])
    ensures NeverOver(c, ops', states')
  {
  }

  /** A replay of a run that never exceeded the limit never exceeds it either. */
  lemma ReplayFits(c: Config, ops: seq<Op>, states: seq<State>, ops': seq<Op>, states': seq<State>)
    requires Run(c, ops, states) && NeverOver(c, ops, states) && (forall op :: op in ops ==> Logging(op))
    requires Run(c, ops', states') && IsReplay(ops', Writes(ops))
    ensures NeverOver(c, ops', states')
  {
    hide Run, NeverOver, IsReplay, Writes, Alike;
    ReplayAlike(c, ops, states, ops', states');
  }

  /**
   * Restart from the log under FIFO: a replay of any run of logged writes, with
   * reads and ticks between them, rebuilds its contents and its queue, evictions
   * included.
   */
  lemma FifoReplayRebuilds(c: Config, ops: seq<Op>, states: seq<State>, ops': seq<Op>, states': seq<State>)
    requires c.policy == NoEviction && Run(c, ops, states) && (forall op :: op in ops ==> Logging(op))
    requires Run(c, ops', states') && IsReplay(ops', Writes(ops))
    ensures Cells(states'[|ops'|]) == Cells(states[|ops|])
    ensures states'[|ops'|].fifo == states[|ops|].fifo
  {
    hide Run, IsReplay, Writes, Cells, NeverOver;
    ReplayAlike(c, ops, states, ops', states');
  }

  /** Under volatile-random, writes without TTL are never evicted, over the limit or not. */
  lemma VolatileEvictsNothing(c: Config, ops: seq<Op>, states: seq<State>)
    requires c.policy == VolatileRandom && Run(c, ops, states) && (forall op :: op in ops ==> Logging(op))
    ensures |states| == |ops| + 1 && NothingEvicted(ops, states)
  {
    hide Evicted, Written;
    forall i | 0 <= i < |ops| && ops[i].Set? ensures states[i + 1].data == AfterWrite(states[i], ops[i]).data {
      assert Step(c, states[i], ops[i], states[i + 1]);
      assert ops[i] in ops && forall op :: op in ops[..i] ==> op in ops;
      RunPrefix(c, ops, states, i);
      LoggedNoDeadline(c, ops[..i], states[..i + 1], ops[i]);
      VolatileKeeps(c, AfterWrite(states[i], ops[i]), states[i + 1]);
    }
  }

  lemma LoggedNoDeadline(c: Config, ops: seq<Op>, states: seq<State>, op: Op)
    requires Run(c, ops, states) && (forall o :: o in ops ==> Logging(o)) && op.Set? && op.ttl == 0
    ensures |states| == |ops| + 1 && NoDeadline(AfterWrite(states[|ops|], op))
  {
    StoredIsLatest(c, ops, states);
    LatestOfLogging(ops);
    OverlayNeverExpires(map[], Writes(ops));
    hide Run, Latest, Overlay, Writes, Logging, Without;
  }

  /** Outside LRU and LFU a run that evicts nothing can be repeated. */
  lemma EvictsNothingRepeats(c: Config, ops: seq<Op>, states: seq<State>)
    requires Run(c, ops, states) && NothingEvicted(ops, states)
    requires c.policy == AllKeysRandom
             || (UsesHeap(c.policy) && forall op :: op in ops && op.Set? ==> op.key != [])
    requires forall op :: op in ops ==> Logging(op)
    ensures NeverOver(c, ops, states)
  {
    forall i | 0 <= i < |ops| && ops[i].Set? ensures !Over(c, AfterWrite(states[i], ops[i])) {
      var w := AfterWrite(states[i], ops[i]);
      assert Step(c, states[i], ops[i], states[i + 1]);
      InvRun(c, ops, states, i);
      InvWritten(states[i], ops[i].key, ops[i].value, ops[i].ttl, ops[i].now, ops[i].later);
      hide Inv, Evicted, Written, Over;
      if UsesHeap(c.policy) {
        NoEmptyKey(c, ops, states, i);
      }
      KeepsOnlyBelow(c, w, states[i + 1]);
    }
  }

  lemma NoEmptyKey(c: Config, ops: seq<Op>, states: seq<State>, i: nat)
    requires Run(c, ops, states) && i < |ops| && ops[i].Set? && (forall op :: op in ops ==> Logging(op))
    requires forall op :: op in ops && op.Set? ==> op.key != []
    ensures |states| == |ops| + 1 && [] !in AfterWrite(states[i], ops[i]).data
  {
    assert ops[i] in ops;
    forall op | op in ops ensures RegularOp(op) {
      assert Logging(op);
    }
    InvRun(c, ops, states, i);
  }

  /**
   * Restart from the log: a run of logged writes that evicted nothing, with any reads
   * and expiry ticks between them, is rebuilt by the replay, contents and queue. Under
   * LRU and LFU the run must not have been over its limit; without the empty key it
   * was not (`EvictsNothingRepeats`).
   */
  lemma ReplayRebuilds(c: Config, ops: seq<Op>, states: seq<State>, ops': seq<Op>, states': seq<State>)
    requires Run(c, ops, states) && NothingEvicted(ops, states) && (forall op :: op in ops ==> Logging(op))
    requires UsesHeap(c.policy) ==> NeverOver(c, ops, states)
    requires Run(c, ops', states') && IsReplay(ops', Writes(ops))
    ensures Cells(states'[|ops'|]) == Cells(states[|ops|])
    ensures states'[|ops'|].fifo == states[|ops|].fifo
  {
    hide Run, IsReplay, Writes, Cells, NeverOver, NothingEvicted;
    if c.policy == AllKeysRandom {
      EvictsNothingRepeats(c, ops, states);
    }
    ReplayAlike(c, ops, states, ops', states');
  }
}
