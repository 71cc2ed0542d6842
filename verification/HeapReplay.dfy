/**
 * Replay under LRU and LFU with evictions included: while the clock goes forward and no
 * read hits, the victims are the keys in the order of their last write, which the log
 * records, so a replay evicts what the run evicted.
 */
module HeapReplay {
  import opened Bytes
  import opened StoreModel
  import opened StoreFacts
  import opened StoreInvariant
  import opened TimedMap
  import opened Restart
  import opened Replays

  /** Items were used once, each at its own time, none after `t`. */
  ghost predicate Spread(s: State, t: int) {
    && (forall k :: k in s.data ==> s.data[k].freq == 1 && s.data[k].lastAccess <= t)
    && (forall k, l :: k in s.data && l in s.data && k != l ==> s.data[k].lastAccess != s.data[l].lastAccess)
  }

  /** The same keys were used in the same order. */
  ghost predicate SameOrder(a: State, b: State)
    requires a.data.Keys == b.data.Keys
  {
    forall k, l :: k in a.data && l in a.data ==>
      (a.data[k].lastAccess < a.data[l].lastAccess <==> b.data[k].lastAccess < b.data[l].lastAccess)
  }

  /** States alike that a heap policy cannot tell apart. */
  ghost predicate Twins(a: State, t: int, b: State, u: int) {
    && Alike(a, b)
    && a.lru == b.lru && a.lfu == b.lfu
    && Spread(a, t) && Spread(b, u)
    && a.data.Keys == b.data.Keys && SameOrder(a, b)
  }

  lemma TwinsSymmetric(a: State, t: int, b: State, u: int)
    requires Twins(a, t, b, u)
    ensures Twins(b, u, a, t)
  {
    AlikeSymmetric(a, b);
    hide Alike, Spread;
  }

  /** Fewer items are spread as well, and in the same order. */
  lemma OrderRemoved(a: State, t: int, b: State, u: int, gone: set<Str>)
    requires a.data.Keys == b.data.Keys && SameOrder(a, b) && Spread(a, t) && Spread(b, u)
    ensures var x, y := Removed(a, gone), Removed(b, gone);
      Spread(x, t) && Spread(y, u) && x.data.Keys == y.data.Keys && SameOrder(x, y)
  {
    hide Without;
  }

  lemma TwinsRemoved(a: State, t: int, b: State, u: int, gone: set<Str>)
    requires Twins(a, t, b, u)
    ensures Twins(Removed(a, gone), t, Removed(b, gone), u)
  {
    AlikeRemoved(a, b, gone);
    OrderRemoved(a, t, b, u, gone);
    hide Alike, Without, Spread, SameOrder;
  }

  lemma AlikeSameParts(a: State, b: State, x: State, y: State)
    requires Alike(a, b) && Inv(x) && Inv(y)
    requires x.data == a.data && x.fifo == a.fifo && y.data == b.data && y.fifo == b.fifo
    ensures Alike(x, y)
  {
    hide Inv;
  }

  lemma OrderSameParts(a: State, t: int, b: State, u: int, x: State, y: State)
    requires a.data.Keys == b.data.Keys && SameOrder(a, b) && Spread(a, t) && Spread(b, u)
    requires x.data == a.data && y.data == b.data
    ensures Spread(x, t) && Spread(y, u) && SameOrder(x, y)
  {
  }

  lemma TwinsUntracked(p: Policy, a: State, t: int, b: State, u: int)
    requires Twins(a, t, b, u)
    ensures Twins(Untracked(p, a, []), t, Untracked(p, b, []), u)
  {
    InvUntracked(p, a);
    InvUntracked(p, b);
    AlikeSameParts(a, b, Untracked(p, a, []), Untracked(p, b, []));
    OrderSameParts(a, t, b, u, Untracked(p, a, []), Untracked(p, b, []));
    hide Inv, Spread, SameOrder, Alike;
  }

  lemma TwinsOver(c: Config, a: State, t: int, b: State, u: int)
    requires Twins(a, t, b, u)
    ensures Over(c, a) <==> Over(c, b)
  {
    hide Alike, Spread, SameOrder, Over;
    AlikeOver(c, a, b);
  }

  lemma SpreadWritten(s: State, t: int, op: Op)
    requires Spread(s, t) && op.Set? && op.now > t
    ensures Spread(AfterWrite(s, op), op.now)
  {
    hide Without;
  }

  /** The key written last is the youngest. */
  lemma OrderWritten(a: State, t: int, op: Op, b: State, u: int, op': Op)
    requires a.data.Keys == b.data.Keys && SameOrder(a, b) && Spread(a, t) && Spread(b, u)
    requires op.Set? && op'.Set? && op.key == op'.key && op.now > t && op'.now > u
    ensures AfterWrite(a, op).data.Keys == AfterWrite(b, op').data.Keys
    ensures SameOrder(AfterWrite(a, op), AfterWrite(b, op'))
  {
    hide Without;
  }

  lemma TwinsWritten(a: State, t: int, op: Op, b: State, u: int, op': Op)
    requires Twins(a, t, b, u) && op.Set? && op.ttl == 0 && op.now > t
    requires op'.Set? && op'.ttl == 0 && op'.now > u && op.key == op'.key && op.value == op'.value
    ensures Twins(AfterWrite(a, op), op.now, AfterWrite(b, op'), op'.now)
  {
    AlikeWritten(a, b, op, op');
    SpreadWritten(a, t, op);
    SpreadWritten(b, u, op');
    OrderWritten(a, t, op, b, u, op');
    hide Alike, Spread, SameOrder, Without;
  }

  /** Twins have the same candidate, and only one. */
  lemma TwinCandidates(p: Policy, a: State, t: int, b: State, u: int, v: Str, w: Str)
    requires UsesHeap(p) && Twins(a, t, b, u) && Candidate(p, a, v)
    ensures Candidate(p, b, v) && Tracked(p, b) == Tracked(p, a) != {}
    ensures Candidate(p, b, w) ==> w == v
  {
    hide Alike;
    AlikeTracked(p, a, b);
  }

  lemma AlikeTracked(p: Policy, a: State, b: State)
    requires Alike(a, b)
    ensures Tracked(p, a) <= a.data.Keys
  {
  }

  // ---------- Eviction ----------

  /** As long as both go on, they take the same victims. */
  lemma {:induction false} SameSoFar(c: Config, a: State, t: int, us: seq<Str>, b: State, u: int, vs: seq<Str>, i: nat)
    requires UsesHeap(c.policy) && Twins(a, t, b, u)
    requires EvictionPath(c, a, us) && EvictionPath(c, b, vs) && i <= |us| && i <= |vs|
    ensures us[..i] == vs[..i]
    decreases i
  {
    hide EvictionPath, Twins, Candidate, Removed;
    if i > 0 {
      SameSoFar(c, a, t, us, b, u, vs, i - 1);
      PathAt(c, a, us, i - 1);
      PathAt(c, b, vs, i - 1);
      TwinsRemoved(a, t, b, u, Elems(us[..i - 1]));
      TwinCandidates(c.policy, Removed(a, Elems(us[..i - 1])), t, Removed(b, Elems(us[..i - 1])), u,
                     us[i - 1], vs[i - 1]);
      assert us[..i] == us[..i - 1] + [us[i - 1]] && vs[..i] == vs[..i - 1] + [vs[i - 1]];
    }
  }

  /** Where one eviction has ended, its twin has no further victim. */
  lemma EndsForBoth(c: Config, m: State, t: int, a': State, n: State, u: int, v: Str)
    requires UsesHeap(c.policy) && Twins(m, t, n, u) && EvictionEnd(c, m, a') && v != []
    ensures !(Over(c, n) && Candidate(c.policy, n, v))
  {
    hide Twins, Over, Candidate;
    TwinsOver(c, m, t, n, u);
    if Over(c, n) && Candidate(c.policy, n, v) {
      TwinsSymmetric(m, t, n, u);
      TwinCandidates(c.policy, n, u, m, t, v, []);
    }
  }

  lemma NoLaterEnd(c: Config, a: State, t: int, us: seq<Str>, a': State, b: State, u: int, vs: seq<Str>)
    requires UsesHeap(c.policy) && Twins(a, t, b, u) && EvictedBy(c, a, us, a') && EvictionPath(c, b, vs)
    ensures |us| >= |vs|
  {
    hide EvictionPath, EvictionEnd, Twins, Candidate, Removed, Over;
    if |us| < |vs| {
      var i := |us|;
      SameSoFar(c, a, t, us, b, u, vs, i);
      assert us[..i] == us;
      TwinsRemoved(a, t, b, u, Elems(us));
      PathAt(c, b, vs, i);
      NotEmptyVictim(c, b, vs, i);
      EndsForBoth(c, Removed(a, Elems(us)), t, a', Removed(b, Elems(us)), u, vs[i]);
    }
  }

  lemma NotEmptyVictim(c: Config, s: State, victims: seq<Str>, i: nat)
    requires UsesHeap(c.policy) && EvictionPath(c, s, victims) && i < |victims|
    ensures victims[i] != []
  {
  }

  /** The ends are of the same kind. */
  lemma SameEnd(c: Config, m: State, t: int, a': State, n: State, u: int, b': State)
    requires UsesHeap(c.policy) && Twins(m, t, n, u) && EvictionEnd(c, m, a') && EvictionEnd(c, n, b')
    ensures Twins(a', t, b', u)
  {
    TwinsUntracked(c.policy, m, t, n, u);
    TwinsOver(c, m, t, n, u);
    SameExhausted(c.policy, m, t, n, u);
    StopsOrEnds(c.policy, m);
    StopsOrEnds(c.policy, n);
    hide Twins, Over, Candidate, Exhausted, Untracked;
    if Over(c, m) && Candidate(c.policy, m, []) {
      TwinCandidates(c.policy, m, t, n, u, [], []);
    }
  }

  lemma SameExhausted(p: Policy, m: State, t: int, n: State, u: int)
    requires UsesHeap(p) && Twins(m, t, n, u)
    ensures Exhausted(p, m) <==> Exhausted(p, n)
  {
    hide Alike, Spread, SameOrder;
  }

  lemma StopsOrEnds(p: Policy, m: State)
    requires UsesHeap(p)
    ensures Candidate(p, m, []) ==> !Exhausted(p, m)
  {
  }

  /** Twins evict the same keys. */
  lemma TwinEvictions(c: Config, a: State, t: int, a': State, b: State, u: int, b': State)
    requires UsesHeap(c.policy) && Twins(a, t, b, u) && Evicted(c, a, a') && Evicted(c, b, b')
    ensures Twins(a', t, b', u)
  {
    hide EvictionPath, EvictionEnd, Twins, Removed;
    var us :| EvictedBy(c, a, us, a');
    var vs :| EvictedBy(c, b, vs, b');
    TwinsSymmetric(a, t, b, u);
    NoLaterEnd(c, a, t, us, a', b, u, vs);
    NoLaterEnd(c, b, u, vs, b', a, t, us);
    SameSoFar(c, a, t, us, b, u, vs, |us|);
    assert us[..|us|] == us && vs[..|vs|] == vs;
    TwinsRemoved(a, t, b, u, Elems(us));
    SameEnd(c, Removed(a, Elems(us)), t, a', Removed(b, Elems(us)), u, b');
  }

  // ---------- Runs and their replays ----------

  /** The reading of the last Set, before any clock when there is none. */
  function LastSet(ops: seq<Op>): int {
    if ops == [] then -1
    else if ops[|ops| - 1].Set? then ops[|ops| - 1].now
    else LastSet(ops[..|ops| - 1])
  }

  /** Each Set reads a later time than all Sets before it. */
  ghost predicate Rising(ops: seq<Op>) {
    forall i :: 0 <= i < |ops| && ops[i].Set? ==> LastSet(ops[..i]) < ops[i].now
  }

  lemma RisingFront(ops: seq<Op>)
    requires Rising(ops) && ops != []
    ensures var n := |ops| - 1;
      && Rising(ops[..n])
      && (ops[n].Set? ==> LastSet(ops[..n]) < ops[n].now)
      && LastSet(ops) == if ops[n].Set? then ops[n].now else LastSet(ops[..n])
  {
    var n := |ops| - 1;
    assert LastSet(ops) == if ops[n].Set? then ops[n].now else LastSet(ops[..n]);
    hide LastSet;
    forall i | 0 <= i < n && ops[..n][i].Set? ensures LastSet(ops[..n][..i]) < ops[..n][i].now {
      assert ops[..n][..i] == ops[..i];
    }
  }

  /** No read of the run found its key. */
  ghost predicate NoHits(ops: seq<Op>, states: seq<State>)
    requires |states| == |ops| + 1
  {
    forall i :: 0 <= i < |ops| && ops[i].Get? ==> ops[i].key !in states[i].data
  }

  lemma NoHitsFront(ops: seq<Op>, states: seq<State>)
    requires |states| == |ops| + 1 && NoHits(ops, states) && ops != []
    ensures var n := |ops| - 1;
      NoHits(ops[..n], states[..n + 1]) && (ops[n].Get? ==> ops[n].key !in states[n].data)
  {
  }

  lemma NoHitsSnoc(ops: seq<Op>, states: seq<State>, op: Op, s': State)
    requires |states| == |ops| + 1 && NoHits(ops, states) && (op.Get? ==> op.key !in states[|ops|].data)
    ensures NoHits(ops + [op], states + [s'])
  {
  }

  /** A tick, or a read that misses. */
  lemma TwinsOther(c: Config, a: State, t: int, op: Op, a': State, b: State, u: int)
    requires Twins(a, t, b, u) && (op.ActiveExpire? || (op.Get? && op.key !in a.data)) && Step(c, a, op, a')
    ensures Twins(a', t, b, u)
  {
    AlikeOther(c, a, op, a', b);
    NothingElse(c, a, op, a', b);
    OrderSameParts(a, t, b, u, a', b);
    hide Alike, Spread, SameOrder, Swept;
  }

  lemma NothingElse(c: Config, a: State, op: Op, a': State, b: State)
    requires Alike(a, b) && (op.ActiveExpire? || (op.Get? && op.key !in a.data)) && Step(c, a, op, a')
    ensures a'.data == a.data && a'.lru == a.lru && a'.lfu == a.lfu
  {
    hide Inv, Cells;
    if op.ActiveExpire? {
      var gone, n :| SweptBy(a, op.now, gone, n, a');
      assert gone == {};
      RemovedNothing(a);
    }
  }

  lemma TwinsStart(c: Config, states: seq<State>, ops': seq<Op>, states': seq<State>)
    requires Run(c, [], states) && Run(c, ops', states') && IsReplay(ops', Writes([]))
    ensures |states| == 1 && |states'| == 1 && ops' == []
    ensures Twins(states[0], LastSet([]), states'[0], LastSet(ops'))
  {
    AlikeStart(c, states, ops', states');
  }

  lemma {:induction false} HeapReplayTwins(c: Config, ops: seq<Op>, states: seq<State>,
                                           ops': seq<Op>, states': seq<State>)
    requires UsesHeap(c.policy) && Run(c, ops, states) && (forall op :: op in ops ==> Logging(op))
    requires |states| == |ops| + 1 && NoHits(ops, states) && Rising(ops)
    requires Run(c, ops', states') && IsReplay(ops', Writes(ops)) && Rising(ops')
    ensures |states'| == |ops'| + 1
    ensures Twins(states[|ops|], LastSet(ops), states'[|ops'|], LastSet(ops'))
    decreases |ops|
  {
    hide Run, Step, Twins, IsReplay, Writes, Rising, NoHits, LastSet, UsesHeap;
    if ops == [] {
      TwinsStart(c, states, ops', states');
    } else {
      var n := |ops| - 1;
      WritesPrefix(ops);
      RunFront(c, ops, states);
      RisingFront(ops);
      NoHitsFront(ops, states);
      assert ops[n] in ops;
      assert forall op :: op in ops[..n] ==> op in ops;
      if ops[n].Set? {
        ReplayFront(ops', Writes(ops));
        RunFront(c, ops', states');
        RisingFront(ops');
        var m := |ops'| - 1;
        assert Writes(ops)[..|Writes(ops[..n])|] == Writes(ops[..n]);
        HeapReplayTwins(c, ops[..n], states[..n + 1], ops'[..m], states'[..m + 1]);
        TwinsSet(c, states[n], LastSet(ops[..n]), ops[n], states[n + 1],
                 states'[m], LastSet(ops'[..m]), ops'[m], states'[m + 1]);
      } else {
        assert Writes(ops[..n]) + [] == Writes(ops[..n]);
        HeapReplayTwins(c, ops[..n], states[..n + 1], ops', states');
        TwinsOther(c, states[n], LastSet(ops[..n]), ops[n], states[n + 1], states'[|ops'|], LastSet(ops'));
      }
    }
  }

  lemma TwinsSet(c: Config, a: State, t: int, op: Op, a': State, b: State, u: int, op': Op, b': State)
    requires UsesHeap(c.policy) && Twins(a, t, b, u) && op.Set? && op.ttl == 0 && op.now > t
    requires op'.Set? && op'.ttl == 0 && op'.now > u && op.key == op'.key && op.value == op'.value
    requires Step(c, a, op, a') && Step(c, b, op', b')
    ensures Twins(a', op.now, b', op'.now)
  {
    hide Twins, Evicted, Written;
    TwinsWritten(a, t, op, b, u, op');
    TwinEvictions(c, AfterWrite(a, op), op.now, a', AfterWrite(b, op'), op'.now, b');
  }

  /**
   * Restart from the log under LRU and LFU: a replay of a run of logged writes, with
   * ticks and missing reads between them, rebuilds its contents and its queue, evictions
   * included, if the clock rises from SET to SET in both.
   */
  lemma HeapReplayRebuilds(c: Config, ops: seq<Op>, states: seq<State>, ops': seq<Op>, states': seq<State>)
    requires UsesHeap(c.policy) && Run(c, ops, states) && (forall op :: op in ops ==> Logging(op))
    requires NoHits(ops, states) && Rising(ops)
    requires Run(c, ops', states') && IsReplay(ops', Writes(ops)) && Rising(ops')
    ensures Cells(states'[|ops'|]) == Cells(states[|ops|])
    ensures states'[|ops'|].fifo == states[|ops|].fifo
  {
    hide Run, IsReplay, Writes, Cells, NoHits, Rising;
    RunPrefix(c, ops, states, 0);
    HeapReplayTwins(c, ops, states, ops', states');
  }
}
