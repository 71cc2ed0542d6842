/**
 * Restart from a snapshot and the whole log (pkg/server/server.go:188-229) when the
 * replay itself exceeds the memory limit and evicts: what is rebuilt all the same.
 */
module RestartEviction {
  import opened Bytes
  import opened StoreModel
  import opened StoreFacts
  import opened StoreInvariant
  import opened StoreEviction
  import opened TimedMap
  import opened Restart
  import opened Replays

  /** `states` are the states of these Sets from `s` on. */
  ghost predicate Replaying(c: Config, s: State, ops: seq<Op>, states: seq<State>) {
    && |states| == |ops| + 1
    && states[0] == s
    && forall i :: 0 <= i < |ops| ==> ops[i].Set? && Step(c, states[i], ops[i], states[i + 1])
  }

  predicate Rewritten(k: Str, ws: seq<Write>) {
    exists i :: 0 <= i < |ws| && ws[i].key == k
  }

  /** The contents after `j` writes outweigh the limit. */
  ghost predicate Overflows(c: Config, base: map<Str, Cell>, ws: seq<Write>, j: nat)
    requires j <= |ws|
  {
    0 < c.maxMemory < Weight(Overlay(base, ws[..j]))
  }

  /** Volatile-random spares keys without a deadline, LRU and LFU the empty key. */
  predicate Evictable(p: Policy, k: Str, cell: Cell) {
    (p == VolatileRandom ==> cell.expiresAt != 0) && (UsesHeap(p) ==> k != [])
  }

  /** Every key of the contents after `j` writes that can be evicted is written again later. */
  ghost predicate AllRewritten(p: Policy, base: map<Str, Cell>, ws: seq<Write>, j: nat)
    requires j <= |ws|
  {
    var m := Overlay(base, ws[..j]);
    forall k :: k in m && Evictable(p, k, m[k]) ==> Rewritten(k, ws[j..])
  }

  /** Wherever the contents outweigh the limit, all that can be evicted is written again later. */
  ghost predicate Recoverable(c: Config, base: map<Str, Cell>, ws: seq<Write>) {
    forall j :: 0 < j <= |ws| && Overflows(c, base, ws, j) ==> AllRewritten(c.policy, base, ws, j)
  }

  /** Under volatile-random, contents without deadlines can always be recovered. */
  lemma VolatileRecoverable(c: Config, base: map<Str, Cell>, ws: seq<Write>)
    requires c.policy == VolatileRandom && forall k :: k in base ==> base[k].expiresAt == 0
    ensures Recoverable(c, base, ws)
  {
    hide Overlay, Overflows;
    forall j | 0 < j <= |ws| && Overflows(c, base, ws, j) ensures AllRewritten(c.policy, base, ws, j) {
      OverlayNeverExpires(base, ws[..j]);
    }
  }

  // ---------- What is rebuilt ----------

  /** After `j` writes: only latest values are stored, and whatever is not written again is stored. */
  ghost predicate Holding(s: State, base: map<Str, Cell>, ws: seq<Write>, j: nat)
    requires j <= |ws|
  {
    && Within(s, Overlay(base, ws[..j]))
    && forall k :: k in Overlay(base, ws[..j]) && !Rewritten(k, ws[j..]) ==> k in s.data
  }

  lemma RewrittenCons(k: Str, ws: seq<Write>, j: nat)
    requires j < |ws|
    ensures Rewritten(k, ws[j..]) <==> k == ws[j].key || Rewritten(k, ws[j + 1..])
  {
    var now, later := ws[j..], ws[j + 1..];
    if k == ws[j].key {
      assert now[0].key == k;
    } else if i :| 0 <= i < |later| && later[i].key == k {
      assert now[i + 1].key == k;
    }
  }

  /** What is stored weighs no more than all of the contents. */
  lemma WithinWeight(s: State, m: map<Str, Cell>)
    requires Inv(s) && Within(s, m)
    ensures Used(s.data) <= Weight(m)
  {
    var part := map k | k in s.data :: m[k];
    var all := DataOf(m);
    CellsWeight(s);
    assert Cells(s) == part;
    hide Inv, Within;
    UsedSubset(DataOf(part), all);
  }

  /** Volatile-random evicts only keys with a deadline. */
  lemma VolatileSpares(c: Config, w: State, s': State, k: Str)
    requires c.policy == VolatileRandom && Evicted(c, w, s') && k in w.data && w.data[k].expiresAt == 0
    ensures k in s'.data
  {
    hide EvictionPath, EvictionEnd;
    var victims :| EvictedBy(c, w, victims, s');
    EvictedParts(c, w, victims, s');
    if k in victims {
      var i :| 0 <= i < |victims| && victims[i] == k;
      PathAt(c, w, victims, i);
    }
  }

  /** LRU and LFU never evict the empty key. */
  lemma HeapSpares(c: Config, w: State, s': State)
    requires UsesHeap(c.policy) && Evicted(c, w, s') && [] in w.data
    ensures [] in s'.data
  {
    hide EvictionPath, EvictionEnd;
    var victims :| EvictedBy(c, w, victims, s');
    EvictedParts(c, w, victims, s');
    EmptyKeySurvives(c, w, victims);
  }

  /** The write of the next SET, before it evicts. */
  lemma HoldingWrite(base: map<Str, Cell>, ws: seq<Write>, j: nat, s: State, op: Op)
    requires j < |ws| && Holding(s, base, ws, j)
    requires op.Set? && op.ttl == 0 && op.key == ws[j].key && op.value == ws[j].value
    ensures Holding(AfterWrite(s, op), base, ws, j + 1)
  {
    hide Overlay, Rewritten, Without;
    var m, w := Overlay(base, ws[..j + 1]), AfterWrite(s, op);
    OverlaySnoc(base, ws, j);
    forall k | k in m && !Rewritten(k, ws[j + 1..]) ensures k in w.data {
      RewrittenCons(k, ws, j);
    }
  }

  /** One replayed write. */
  lemma HoldingStep(c: Config, base: map<Str, Cell>, ws: seq<Write>, j: nat, s: State, op: Op, s': State)
    requires j < |ws| && Inv(s) && Holding(s, base, ws, j)
    requires op.Set? && op.ttl == 0 && op.key == ws[j].key && op.value == ws[j].value && Step(c, s, op, s')
    requires Overflows(c, base, ws, j + 1) ==> AllRewritten(c.policy, base, ws, j + 1)
    ensures Holding(s', base, ws, j + 1)
  {
    var m, w := Overlay(base, ws[..j + 1]), AfterWrite(s, op);
    HoldingWrite(base, ws, j, s, op);
    hide Inv, Evicted, Weight, Overlay, Rewritten, Written;
    WithinEvicted(c, w, s', m);
    if Overflows(c, base, ws, j + 1) {
      forall k | k in m && !Rewritten(k, ws[j + 1..]) ensures k in s'.data {
        assert CellOf(w.data[k]) == m[k];
        if UsesHeap(c.policy) {
          HeapSpares(c, w, s');
        } else {
          VolatileSpares(c, w, s', k);
        }
      }
    } else {
      InvWritten(s, op.key, op.value, op.ttl, op.now, op.later);
      WithinWeight(w, m);
      NoEvictionBelowLimit(c, w, s');
    }
  }

  lemma ReplayingAt(c: Config, s: State, ops: seq<Op>, states: seq<State>, ws: seq<Write>, j: nat)
    requires Replaying(c, s, ops, states) && IsReplay(ops, ws) && j < |ops|
    ensures |states| == |ops| + 1 && |ws| == |ops| && states[0] == s
    ensures Step(c, states[j], ops[j], states[j + 1]) && Allowed(ops[j])
    ensures ops[j].Set? && ops[j].ttl == 0 && ops[j].key == ws[j].key && ops[j].value == ws[j].value
  {
  }

  lemma {:induction false} HoldingAlong(c: Config, s: State, ops: seq<Op>, states: seq<State>,
                                        ws: seq<Write>, j: nat)
    requires Inv(s) && Replaying(c, s, ops, states) && IsReplay(ops, ws) && j <= |ops|
    requires Recoverable(c, Cells(s), ws)
    ensures |states| == |ops| + 1 && |ws| == |ops|
    ensures Inv(states[j]) && Holding(states[j], Cells(s), ws, j)
    decreases j
  {
    hide Inv, Step, Holding, Overflows, AllRewritten;
    if j == 0 {
      HoldingStart(s, ws);
    } else {
      HoldingAlong(c, s, ops, states, ws, j - 1);
      hide Replaying, IsReplay;
      ReplayingAt(c, s, ops, states, ws, j - 1);
      InvStep(c, states[j - 1], ops[j - 1], states[j]);
      HoldingStep(c, Cells(s), ws, j - 1, states[j - 1], ops[j - 1], states[j]);
    }
  }

  lemma HoldingStart(s: State, ws: seq<Write>)
    ensures Holding(s, Cells(s), ws, 0)
  {
    assert ws[..0] == [];
  }

  lemma HoldingEnd(s: State, base: map<Str, Cell>, ws: seq<Write>)
    requires Holding(s, base, ws, |ws|)
    ensures Cells(s) == Overlay(base, ws)
  {
    hide Overlay;
    assert ws[..|ws|] == ws && ws[|ws|..] == [];
  }

  /** A replay from any state, under any policy, with whatever it evicts. */
  lemma ReplayRecovers(c: Config, s: State, ops: seq<Op>, states: seq<State>, ws: seq<Write>)
    requires Inv(s) && Replaying(c, s, ops, states) && IsReplay(ops, ws) && Recoverable(c, Cells(s), ws)
    ensures |states| == |ops| + 1 && Cells(states[|ops|]) == Overlay(Cells(s), ws)
  {
    hide Inv, Replaying, IsReplay, Recoverable, Holding;
    ReplayLength(ops, ws);
    HoldingAlong(c, s, ops, states, ws, |ops|);
    HoldingEnd(states[|ops|], Cells(s), ws);
  }

  /** The replay that follows the restore of a snapshot. */
  lemma AfterRestore(c: Config, entries: seq<SnapshotEntry>, now: nat,
                     ops: seq<Op>, states: seq<State>, ws: seq<Write>)
    requires Run(c, [Restore(entries, now)] + ops, states) && IsReplay(ops, ws)
    ensures |states| == |ops| + 2 && Inv(states[1]) && Cells(states[1]) == FromEntries(entries, now)
    ensures Replaying(c, states[1], ops, states[1..])
  {
    var all := [Restore(entries, now)] + ops;
    InvRun(c, all, states, 1);
    hide Step, Inv, FromEntries;
    assert Step(c, states[0], all[0], states[1]);
    RestoredCells(c, states[0], entries, now, states[1]);
    forall i | 0 <= i < |ops| ensures ops[i].Set? && Step(c, states[1..][i], ops[i], states[1..][i + 1]) {
      assert all[i + 1] == ops[i];
    }
  }

  lemma RestoredCells(c: Config, s: State, entries: seq<SnapshotEntry>, now: nat, s': State)
    requires Step(c, s, Restore(entries, now), s')
    ensures Cells(s') == FromEntries(entries, now)
  {
    LoadedCells(s, entries, now);
  }

  /**
   * A restart may exceed the limit and evict, under any policy: as long as every key
   * present at such a moment that can be evicted is written again later, it ends with
   * the snapshot overlaid by the whole log.
   */
  lemma RestartRebuilds(c: Config, entries: seq<SnapshotEntry>, now: nat,
                        ops: seq<Op>, states: seq<State>, ws: seq<Write>)
    requires Run(c, [Restore(entries, now)] + ops, states) && IsReplay(ops, ws)
    requires Recoverable(c, FromEntries(entries, now), ws)
    ensures Cells(states[|ops| + 1]) == Overlay(FromEntries(entries, now), ws)
  {
    hide Run, IsReplay, Replaying, Recoverable, FromEntries, Overlay, Inv;
    AfterRestore(c, entries, now, ops, states, ws);
    ReplayRecovers(c, states[1], ops, states[1..], ws);
  }

  /**
   * Restart of a server from a snapshot taken at any point of its run and then its
   * whole log: if the run evicted nothing the contents are the same, whatever the
   * restart evicts on the way. Under volatile-random there is no proviso.
   */
  lemma SnapshotReplayRebuilds(c: Config, ops: seq<Op>, states: seq<State>, i: nat,
                               taken: nat, entries: seq<SnapshotEntry>, now: nat,
                               ops': seq<Op>, states': seq<State>)
    requires Run(c, ops, states) && (forall op :: op in ops ==> Logging(op))
    requires i <= |ops| && IsSnapshot(states[i], taken, entries)
    requires IsReplay(ops', Writes(ops)) && Run(c, [Restore(entries, now)] + ops', states')
    requires c.policy == VolatileRandom
             || (NothingEvicted(ops, states) && Recoverable(c, Cells(states[i]), Writes(ops)))
    ensures Cells(states'[|ops'| + 1]) == Cells(states[|ops|])
  {
    hide Run, NothingEvicted, IsReplay, IsSnapshot, Cells, Overlay, FromEntries, Writes, Logging, Recoverable;
    var ws, p := Writes(ops), Writes(ops[..i]);
    RunPrefix(c, ops, states, i);
    if c.policy == VolatileRandom {
      VolatileEvictsNothing(c, ops, states);
    }
    NothingEvictedPrefix(ops, states, i);
    assert forall op :: op in ops[..i] ==> op in ops;
    LoggedRunHolds(c, ops[..i], states[..i + 1]);
    NoDeadlines(states[i], p);
    SnapshotCells(states[i], taken, entries, now);
    if c.policy == VolatileRandom {
      OverlayNeverExpires(map[], p);
      VolatileRecoverable(c, Cells(states[i]), ws);
    }
    WritesSplit(ops, i);
    assert ws == p + ws[|p|..];
    OverlayAbsorbs(p, ws[|p|..]);
    RestartRebuilds(c, entries, now, ops', states', ws);
    LoggedRunHolds(c, ops, states);
  }

  /** What a write brings the store to, before it evicts. */
  lemma NextContents(s: State, base: map<Str, Cell>, op: Op, ws: seq<Write>, j: nat)
    requires Inv(s) && j < |ws| && Cells(s) == Overlay(base, ws[..j])
    requires op.Set? && op.ttl == 0 && op.key == ws[j].key && op.value == ws[j].value
    ensures Inv(AfterWrite(s, op)) && Cells(AfterWrite(s, op)) == Overlay(base, ws[..j + 1])
    ensures Used(AfterWrite(s, op).data) == Weight(Overlay(base, ws[..j + 1]))
  {
    hide Inv, Written, Weight, Cells, Overlay;
    OverlaySnoc(base, ws, j);
    InvWritten(s, op.key, op.value, op.ttl, op.now, op.later);
    CellsWritten(s, op);
    CellsWeight(AfterWrite(s, op));
  }

  // ---------- The log alone ----------

  /** A replay on a new server. */
  lemma ReplayFromEmpty(c: Config, ops: seq<Op>, states: seq<State>, ws: seq<Write>)
    requires Run(c, ops, states) && IsReplay(ops, ws) && Recoverable(c, map[], ws)
    ensures Cells(states[|ops|]) == Overlay(map[], ws)
  {
    hide Step, Recoverable;
    assert Replaying(c, EMPTY, ops, states);
    EmptyInv();
    assert Cells(EMPTY) == map[];
    ReplayRecovers(c, EMPTY, ops, states, ws);
  }

  /** Contents that stay within the limit are recoverable. */
  lemma FittingRecoverable(c: Config, ops: seq<Op>, states: seq<State>)
    requires Run(c, ops, states) && NeverOver(c, ops, states) && (forall op :: op in ops ==> Logging(op))
    ensures Recoverable(c, map[], Writes(ops))
  {
    hide Run, NeverOver, Logging, Writes, AllRewritten, Overflows;
    var ws := Writes(ops);
    forall j | 0 < j <= |ws| ensures !Overflows(c, map[], ws, j) {
      NoOverflow(c, ops, states, j);
    }
  }

  lemma {:induction false} NoOverflow(c: Config, ops: seq<Op>, states: seq<State>, j: nat)
    requires Run(c, ops, states) && NeverOver(c, ops, states) && (forall op :: op in ops ==> Logging(op))
    requires 0 < j <= |Writes(ops)|
    ensures !Overflows(c, map[], Writes(ops), j)
    decreases |ops|
  {
    hide Run, NeverOver, Over, Written, Step, Overflows, Writes;
    if ops == [] {
      NoWrites();
      assert false;
    }
    var n := |ops| - 1;
    RunFront(c, ops, states);
    NeverOverPrefix(c, ops, states, n);
    WritesPrefix(ops);
    assert ops[n] in ops && forall op :: op in ops[..n] ==> op in ops;
    if j <= |Writes(ops[..n])| {
      NoOverflow(c, ops[..n], states[..n + 1], j);
      assert Writes(ops)[..j] == Writes(ops[..n])[..j];
      SameOverflow(c, Writes(ops), Writes(ops[..n]), j);
    } else {
      LastFits(c, ops[..n], states[..n + 1], ops[n]);
      assert Writes(ops)[..j] == Writes(ops);
      SameOverflow(c, Writes(ops), Writes(ops[..n]) + [Write(ops[n].key, ops[n].value)], j);
    }
  }

  lemma NoWrites()
    ensures Writes([]) == []
  {
  }

  lemma SameOverflow(c: Config, ws: seq<Write>, vs: seq<Write>, j: nat)
    requires j <= |ws| && j <= |vs| && ws[..j] == vs[..j]
    ensures Overflows(c, map[], ws, j) <==> Overflows(c, map[], vs, j)
  {
  }

  lemma LastFits(c: Config, ops: seq<Op>, states: seq<State>, op: Op)
    requires Run(c, ops, states) && NeverOver(c, ops, states) && (forall o :: o in ops ==> Logging(o))
    requires op.Set? && op.ttl == 0 && !Over(c, AfterWrite(states[|ops|], op))
    ensures var ws := Writes(ops) + [Write(op.key, op.value)]; !Overflows(c, map[], ws, |ws|)
  {
    hide Run, NeverOver, NothingEvicted, Logging, Cells, Weight, Written, Inv, Overlay;
    RunPrefix(c, ops, states, 0);
    FittingEvictsNothing(c, ops, states);
    LoggedRunHolds(c, ops, states);
    InvRun(c, ops, states, |ops|);
    var ws, s := Writes(ops) + [Write(op.key, op.value)], states[|ops|];
    assert ws[..|ws|] == ws && ws[..|ws| - 1] == Writes(ops);
    NextContents(s, map[], op, ws, |ws| - 1);
  }

  /**
   * Restart from the log alone: if the run evicted nothing the contents are rebuilt,
   * whatever the replay evicts on the way. Only under LRU and LFU does the log have to
   * be recoverable; elsewhere it is, or nothing needs to be recovered.
   */
  lemma LogRebuilds(c: Config, ops: seq<Op>, states: seq<State>, ops': seq<Op>, states': seq<State>)
    requires Run(c, ops, states) && NothingEvicted(ops, states) && (forall op :: op in ops ==> Logging(op))
    requires Run(c, ops', states') && IsReplay(ops', Writes(ops))
    requires UsesHeap(c.policy) ==> Recoverable(c, map[], Writes(ops))
    ensures Cells(states'[|ops'|]) == Cells(states[|ops|])
  {
    hide Run, NothingEvicted, IsReplay, Cells, Overlay, Writes, Logging, Recoverable;
    if UsesHeap(c.policy) {
      ReplayFromEmpty(c, ops', states', Writes(ops));
      LoggedRunHolds(c, ops, states);
    } else {
      ReplayRebuilds(c, ops, states, ops', states');
    }
  }
}
