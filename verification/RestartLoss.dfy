/**
 * What a restart from a snapshot and the whole log can lose, and so when it is certain
 * to rebuild the contents.
 */
module RestartLoss {
  import opened Bytes
  import opened StoreModel
  import opened StoreFacts
  import opened StoreInvariant
  import opened StoreEviction
  import opened TimedMap
  import opened Restart
  import opened RestartEviction

  // ---------- Eviction and replay can always go on ----------

  /** A policy that has not run out of keys has a candidate. */
  lemma NextCandidate(p: Policy, m: State) returns (v: Str)
    requires Inv(m) && !Exhausted(p, m)
    ensures Candidate(p, m, v)
  {
    match p
    case NoEviction =>
      if m.fifo != [] {
        v := m.fifo[0];
        assert v in m.fifo;
      } else {
        v :| v in m.data && m.data[v].expiresAt > 0;
      }
    case AllKeysRandom => v :| v in m.data;
    case VolatileRandom => v :| v in m.data && m.data[v].expiresAt != 0;
    case _ => v := LowestKey(p, m.data, Tracked(p, m));
  }

  /** From any victims on, eviction has some way to its end. */
  lemma {:induction false} EvictionGoesOn(c: Config, w: State, victims: seq<Str>) returns (s': State)
    requires Inv(w) && EvictionPath(c, w, victims)
    ensures Evicted(c, w, s') && forall k :: k in s'.data ==> k in w.data && k !in victims
    decreases |Removed(w, Elems(victims)).data|
  {
    var m := Removed(w, Elems(victims));
    InvRemoved(w, Elems(victims));
    hide EvictionPath, EvictionEnd, Inv, Without, Used, Candidate, Exhausted, Untracked;
    if Over(c, m) && !Exhausted(c.policy, m) {
      var v := NextCandidate(c.policy, m);
      CandidateStored(c.policy, m, v);
      if UsesHeap(c.policy) && v == [] {
        s' := Untracked(c.policy, m, []);
        EndsHere(c, w, victims, s');
      } else {
        PathSnoc(c, w, victims, v);
        PathShrinks(w, victims, v);
        s' := EvictionGoesOn(c, w, victims + [v]);
      }
    } else {
      s' := m;
      EndsHere(c, w, victims, s');
    }
  }

  lemma EndsHere(c: Config, w: State, victims: seq<Str>, s': State)
    requires EvictionPath(c, w, victims)
    requires var m := Removed(w, Elems(victims));
      || (s' == m && (!Over(c, m) || Exhausted(c.policy, m)))
      || (s' == Untracked(c.policy, m, []) && UsesHeap(c.policy) && Over(c, m) && Candidate(c.policy, m, []))
    ensures Evicted(c, w, s') && forall k :: k in s'.data ==> k in w.data && k !in victims
  {
    hide EvictionPath, Candidate, Exhausted, Over, Without;
    assert EvictedBy(c, w, victims, s');
  }

  /** Every replay can go on. */
  lemma {:induction false} ReplayExists(c: Config, s: State, ops: seq<Op>) returns (states: seq<State>)
    requires Inv(s) && forall i :: 0 <= i < |ops| ==> ops[i].Set?
    ensures |states| == |ops| + 1 && Replaying(c, s, ops, states) && Inv(states[|ops|])
    decreases |ops|
  {
    if ops == [] {
      states := [s];
    } else {
      hide Evicted, Without, Inv;
      var n := |ops| - 1;
      var front := ReplayExists(c, s, ops[..n]);
      var op := ops[n];
      var w := AfterWrite(front[n], op);
      InvWritten(front[n], op.key, op.value, op.ttl, op.now, op.later);
      PathEmpty(c, w);
      var s' := EvictionGoesOn(c, w, []);
      InvEvicted(c, w, s');
      states := front + [s'];
      ReplayingSnoc(c, s, ops, front, s');
    }
  }

  /** A key that is gone and not written again stays gone, in every replay. */
  lemma {:induction false} GoneStays(c: Config, s: State, ops: seq<Op>, states: seq<State>, k: Str)
    requires Replaying(c, s, ops, states) && k !in s.data && forall op :: op in ops && op.Set? ==> op.key != k
    ensures |states| == |ops| + 1 && k !in states[|ops|].data
    decreases |ops|
  {
    hide Step;
    if ops != [] {
      var n := |ops| - 1;
      assert Replaying(c, s, ops[..n], states[..n + 1]);
      assert ops[n] in ops && forall op :: op in ops[..n] ==> op in ops;
      GoneStays(c, s, ops[..n], states[..n + 1], k);
      GoneStep(c, states[n], ops[n], states[n + 1], {k});
    }
  }

  lemma ReplayingSnoc(c: Config, s: State, ops: seq<Op>, front: seq<State>, s': State)
    requires ops != [] && Replaying(c, s, ops[..|ops| - 1], front)
    requires ops[|ops| - 1].Set? && Step(c, front[|ops| - 1], ops[|ops| - 1], s')
    ensures Replaying(c, s, ops, front + [s'])
  {
    hide Step;
    var n, states := |ops| - 1, front + [s'];
    forall i | 0 <= i < |ops| ensures ops[i].Set? && Step(c, states[i], ops[i], states[i + 1]) {
      if i < n {
        assert ops[..n][i] == ops[i];
      }
    }
  }

  lemma ReplayingJoin(c: Config, s: State, ops: seq<Op>, j: nat, front: seq<State>, rest: seq<State>)
    requires j <= |ops| && Replaying(c, s, ops[..j], front) && Replaying(c, front[j], ops[j..], rest)
    ensures Replaying(c, s, ops, front + rest[1..]) && (front + rest[1..])[|ops|] == rest[|ops| - j]
  {
    hide Step;
    var states := front + rest[1..];
    forall i | 0 <= i < |ops| ensures ops[i].Set? && Step(c, states[i], ops[i], states[i + 1]) {
      if i < j {
        assert ops[..j][i] == ops[i];
      } else {
        assert ops[j..][i - j] == ops[i];
      }
    }
  }

  lemma ReplayingSplit(c: Config, s: State, ops: seq<Op>, j: nat, states: seq<State>)
    requires j <= |ops| && Replaying(c, s, ops, states)
    ensures |states| == |ops| + 1 && Replaying(c, s, ops[..j], states[..j + 1])
    ensures Replaying(c, states[j], ops[j..], states[j..])
  {
    hide Step;
  }

  // ---------- Up to the first overflow ----------

  /** The first place where the contents outweigh the limit. */
  ghost predicate FirstOverflow(c: Config, base: map<Str, Cell>, ws: seq<Write>, j: nat) {
    && 0 < j <= |ws| && Overflows(c, base, ws, j)
    && forall i :: 0 < i < j ==> !Overflows(c, base, ws, i)
  }

  /** Up to there nothing is evicted. */
  lemma {:induction false} ReplayBelow(c: Config, s: State, ops: seq<Op>, ws: seq<Write>, j: nat)
    returns (states: seq<State>)
    requires Inv(s) && IsReplay(ops, ws) && j <= |ops|
    requires forall i :: 0 < i <= j ==> !Overflows(c, Cells(s), ws, i)
    ensures |states| == j + 1 && Replaying(c, s, ops[..j], states)
    ensures Inv(states[j]) && Cells(states[j]) == Overlay(Cells(s), ws[..j])
    decreases j
  {
    hide Cells, Overlay, Weight, Inv, Replaying, IsReplay, Written, Step;
    if j == 0 {
      states := [s];
      StartOf(c, s, ops, ws);
    } else {
      var front := ReplayBelow(c, s, ops, ws, j - 1);
      var s1, op := front[j - 1], ops[j - 1];
      ReplayPrefix(ops, ws, j - 1);
      NextContents(s1, Cells(s), op, ws, j - 1);
      assert !Overflows(c, Cells(s), ws, j);
      StepBelow(c, s1, op);
      states := front + [AfterWrite(s1, op)];
      ReplayingFront(c, s, ops, j, front, AfterWrite(s1, op));
    }
  }

  lemma StartOf(c: Config, s: State, ops: seq<Op>, ws: seq<Write>)
    ensures Replaying(c, s, ops[..0], [s]) && Overlay(Cells(s), ws[..0]) == Cells(s)
  {
    assert ws[..0] == [];
  }

  lemma ReplayingFront(c: Config, s: State, ops: seq<Op>, j: nat, front: seq<State>, s': State)
    requires 0 < j <= |ops| && Replaying(c, s, ops[..j - 1], front) && |front| == j
    requires ops[j - 1].Set? && Step(c, front[j - 1], ops[j - 1], s')
    ensures Replaying(c, s, ops[..j], front + [s'])
  {
    hide Replaying, Step;
    assert ops[..j][..j - 1] == ops[..j - 1];
    ReplayingSnoc(c, s, ops[..j], front, s');
  }

  // ---------- Under random eviction ----------

  /** A key that can be evicted when `j` writes overflow the limit, and is not written again. */
  ghost predicate Exposed(p: Policy, base: map<Str, Cell>, ws: seq<Write>, j: nat, k: Str)
    requires j <= |ws|
  {
    var m := Overlay(base, ws[..j]);
    k in m && Evictable(p, k, m[k]) && !Rewritten(k, ws[j..])
  }

  lemma ExposedOrRewritten(p: Policy, base: map<Str, Cell>, ws: seq<Write>, j: nat)
    requires j <= |ws|
    ensures (forall k :: !Exposed(p, base, ws, j, k)) <==> AllRewritten(p, base, ws, j)
  {
    hide Overlay, Rewritten, Evictable;
    forall k ensures Exposed(p, base, ws, j, k)
      <==> k in Overlay(base, ws[..j]) && Evictable(p, k, Overlay(base, ws[..j])[k]) && !Rewritten(k, ws[j..])
    {
    }
  }

  /** Exposed keys are candidates of the random policies. */
  lemma RandomVictim(c: Config, w: State, base: map<Str, Cell>, ws: seq<Write>, j: nat, k: Str)
    requires j <= |ws| && !UsesHeap(c.policy) && c.policy != NoEviction
    requires Exposed(c.policy, base, ws, j, k) && Cells(w) == Overlay(base, ws[..j])
    ensures Candidate(c.policy, w, k)
  {
    hide Overlay, Rewritten;
    assert k in Cells(w) && CellOf(w.data[k]) == Overlay(base, ws[..j])[k];
  }

  /** Any candidate may be the first victim. */
  lemma LosingStep(c: Config, w: State, k: Str) returns (s': State)
    requires Inv(w) && Over(c, w) && Candidate(c.policy, w, k) && (UsesHeap(c.policy) ==> k != [])
    ensures Evicted(c, w, s') && k !in s'.data
  {
    hide Inv, Evicted, Candidate, Over;
    PathEmpty(c, w);
    PathSnoc(c, w, [], k);
    assert [] + [k] == [k];
    s' := EvictionGoesOn(c, w, [k]);
  }

  /** A replay up to the first overflow that evicts an exposed key there. */
  lemma ReplayUntilLoss(c: Config, s: State, ops: seq<Op>, ws: seq<Write>, j: nat, k: Str)
    returns (states: seq<State>)
    requires Inv(s) && IsReplay(ops, ws) && j <= |ops| && FirstOverflow(c, Cells(s), ws, j)
    requires !UsesHeap(c.policy) && c.policy != NoEviction && Exposed(c.policy, Cells(s), ws, j, k)
    ensures |states| == j + 1 && Replaying(c, s, ops[..j], states)
    ensures Inv(states[j]) && k !in states[j].data
  {
    hide Cells, Overlay, Weight, Inv, Replaying, IsReplay, Written, Evicted, Rewritten, Exposed, Candidate;
    ReplayLength(ops, ws);
    var front := ReplayBelow(c, s, ops, ws, j - 1);
    var s1, op := front[j - 1], ops[j - 1];
    ReplayPrefix(ops, ws, j - 1);
    NextContents(s1, Cells(s), op, ws, j - 1);
    RandomVictim(c, AfterWrite(s1, op), Cells(s), ws, j, k);
    var s' := LosingStep(c, AfterWrite(s1, op), k);
    InvEvicted(c, AfterWrite(s1, op), s');
    assert Step(c, s1, op, s');
    ReplayingFront(c, s, ops, j, front, s');
    states := front + [s'];
  }

  /** Under the random policies every exposed key is lost by some replay, at any times. */
  lemma ReplayMayLose(c: Config, s: State, ops: seq<Op>, ws: seq<Write>, j: nat, k: Str)
    returns (states: seq<State>)
    requires Inv(s) && IsReplay(ops, ws) && FirstOverflow(c, Cells(s), ws, j)
    requires !UsesHeap(c.policy) && c.policy != NoEviction && Exposed(c.policy, Cells(s), ws, j, k)
    ensures |states| == |ops| + 1 && Replaying(c, s, ops, states) && k !in states[|ops|].data
  {
    hide Cells, Inv, Replaying, IsReplay, Rewritten, Exposed, FirstOverflow;
    ReplayLength(ops, ws);
    OverflowBound(c, Cells(s), ws, j);
    NotAgain(c.policy, Cells(s), ws, j, k);
    NotRewritten(ops, ws, j, k);
    var front := ReplayUntilLoss(c, s, ops, ws, j, k);
    var rest := ReplayExists(c, front[j], ops[j..]);
    GoneStays(c, front[j], ops[j..], rest, k);
    ReplayingJoin(c, s, ops, j, front, rest);
    states := front + rest[1..];
  }

  lemma NotAgain(p: Policy, base: map<Str, Cell>, ws: seq<Write>, j: nat, k: Str)
    requires j <= |ws| && Exposed(p, base, ws, j, k)
    ensures !Rewritten(k, ws[j..]) && k in Overlay(base, ws[..j]) && (UsesHeap(p) ==> k != [])
  {
  }

  lemma NotRewritten(ops: seq<Op>, ws: seq<Write>, j: nat, k: Str)
    requires IsReplay(ops, ws) && j <= |ws| && !Rewritten(k, ws[j..])
    ensures forall i :: 0 <= i < |ops[j..]| ==> ops[j..][i].Set? && ops[j..][i].key != k
  {
    forall i | 0 <= i < |ops[j..]| ensures ops[j..][i].Set? && ops[j..][i].key != k {
      assert ws[j..][i].key == ops[j..][i].key;
    }
  }

  lemma OverflowBound(c: Config, base: map<Str, Cell>, ws: seq<Write>, j: nat)
    requires FirstOverflow(c, base, ws, j)
    ensures j <= |ws|
  {
  }

  // ---------- Under LRU and LFU ----------

  /** The clock of a replay: SETs of the keys in `early` read `low`, the others `high`. */
  datatype Clock = Clock(early: set<Str>, low: nat, high: nat)

  function ReadingOf(clock: Clock, k: Str): nat {
    if k in clock.early then clock.low else clock.high
  }

  /** The replay of these writes by that clock. */
  function Timed(ws: seq<Write>, clock: Clock): (ops: seq<Op>)
    ensures IsReplay(ops, ws)
    ensures forall i :: 0 <= i < |ops| ==> ops[i].Set? && ops[i].now == ReadingOf(clock, ws[i].key)
  {
    seq(|ws|, i requires 0 <= i < |ws| =>
      Set(ws[i].key, ws[i].value, 0, ReadingOf(clock, ws[i].key), ReadingOf(clock, ws[i].key)))
  }

  /** After `j` writes: items were used once, at the reading of their SET, or at `t` when only restored. */
  ghost predicate LastRead(s: State, t: int, clock: Clock, ws: seq<Write>, j: nat)
    requires j <= |ws|
  {
    forall k :: k in s.data ==>
      s.data[k].freq == 1
      && s.data[k].lastAccess == if Rewritten(k, ws[..j]) then ReadingOf(clock, k) else t
  }

  lemma RewrittenSnoc(k: Str, ws: seq<Write>, j: nat)
    requires j < |ws|
    ensures Rewritten(k, ws[..j + 1]) <==> Rewritten(k, ws[..j]) || k == ws[j].key
  {
    var before, after := ws[..j], ws[..j + 1];
    if k == ws[j].key {
      assert after[j].key == k;
    } else if i :| 0 <= i < |before| && before[i].key == k {
      assert after[i].key == k;
    }
  }

  lemma LastReadWritten(s: State, op: Op, t: int, clock: Clock, ws: seq<Write>, j: nat)
    requires j < |ws| && LastRead(s, t, clock, ws, j)
    requires op.Set? && op.key == ws[j].key && op.now == ReadingOf(clock, op.key)
    ensures LastRead(AfterWrite(s, op), t, clock, ws, j + 1)
  {
    hide Without, Rewritten;
    var w := AfterWrite(s, op);
    forall k | k in w.data
      ensures w.data[k].freq == 1
      ensures w.data[k].lastAccess == if Rewritten(k, ws[..j + 1]) then ReadingOf(clock, k) else t
    {
      RewrittenSnoc(k, ws, j);
    }
  }

  /** All items were used once, at `t`. */
  ghost predicate UsedAt(s: State, t: int) {
    forall k :: k in s.data ==> s.data[k].freq == 1 && s.data[k].lastAccess == t
  }

  lemma {:induction false} LoadedAges(s: State, entries: seq<SnapshotEntry>, now: nat)
    ensures UsedAt(Loaded(s, entries, now), now)
    decreases |entries|
  {
    if entries != [] {
      LoadedAges(s, entries[..|entries| - 1], now);
    }
  }

  /** Every replay, up to the first overflow: what is stored, and when it was last used. */
  lemma {:induction false} BelowAlong(c: Config, s: State, states: seq<State>, ws: seq<Write>,
                                      t: int, clock: Clock, j: nat)
    requires Inv(s) && Replaying(c, s, Timed(ws, clock), states) && LastRead(s, t, clock, ws, 0)
    requires j <= |ws| && forall i :: 0 < i <= j ==> !Overflows(c, Cells(s), ws, i)
    ensures |states| == |ws| + 1 && Inv(states[j])
    ensures Cells(states[j]) == Overlay(Cells(s), ws[..j]) && LastRead(states[j], t, clock, ws, j)
    decreases j
  {
    hide Inv, Step, Cells, Weight, LastRead, Overlay, Written;
    var ops := Timed(ws, clock);
    if j == 0 {
      StartOf(c, s, ops, ws);
    } else {
      BelowAlong(c, s, states, ws, t, clock, j - 1);
      WriteAlong(c, s, states, ws, t, clock, j);
      assert !Overflows(c, Cells(s), ws, j);
      NoEvictionBelowLimit(c, AfterWrite(states[j - 1], ops[j - 1]), states[j]);
    }
  }

  /** The `j`-th write, before it evicts. */
  lemma WriteAlong(c: Config, s: State, states: seq<State>, ws: seq<Write>, t: int, clock: Clock, j: nat)
    requires Replaying(c, s, Timed(ws, clock), states) && 0 < j <= |ws|
    requires |states| == |ws| + 1 && Inv(states[j - 1])
    requires Cells(states[j - 1]) == Overlay(Cells(s), ws[..j - 1]) && LastRead(states[j - 1], t, clock, ws, j - 1)
    ensures var w := AfterWrite(states[j - 1], Timed(ws, clock)[j - 1]);
      && Inv(w) && Cells(w) == Overlay(Cells(s), ws[..j]) && LastRead(w, t, clock, ws, j)
      && Used(w.data) == Weight(Overlay(Cells(s), ws[..j])) && Evicted(c, w, states[j])
  {
    hide Inv, Cells, Weight, LastRead, Overlay, Written, Evicted;
    var ops := Timed(ws, clock);
    assert Step(c, states[j - 1], ops[j - 1], states[j]);
    ReplayPrefix(ops, ws, j - 1);
    NextContents(states[j - 1], Cells(s), ops[j - 1], ws, j - 1);
    LastReadWritten(states[j - 1], ops[j - 1], t, clock, ws, j - 1);
  }

  /** These keys were used once, at `t`, and all others later. */
  ghost predicate Oldest(w: State, group: set<Str>, t: int) {
    && group <= w.data.Keys
    && forall k :: k in w.data ==>
         w.data[k].freq == 1 && if k in group then w.data[k].lastAccess == t else w.data[k].lastAccess > t
  }

  lemma OldestCandidates(p: Policy, w: State, group: set<Str>, t: int, v: Str)
    requires UsesHeap(p) && Inv(w) && Oldest(w, group, t) && group != {} && [] !in group
    ensures Tracked(p, w) != {} && (Candidate(p, w, v) ==> v in group)
  {
    var g :| g in group;
    assert g in Tracked(p, w);
  }

  /** However ties are resolved, LRU and LFU begin with one of the oldest keys. */
  lemma OneOfTheOldest(c: Config, w: State, s': State, group: set<Str>, t: int) returns (v: Str)
    requires UsesHeap(c.policy) && Inv(w) && Over(c, w) && Evicted(c, w, s')
    requires Oldest(w, group, t) && group != {} && [] !in group
    ensures v in group && v !in s'.data
  {
    PathEmpty(c, w);
    OldestCandidates(c.policy, w, group, t, []);
    hide EvictionPath, Over, Candidate, Oldest, Inv;
    var victims :| EvictedBy(c, w, victims, s');
    if victims == [] {
      assert false;
    }
    assert victims[..0] == [];
    PathAt(c, w, victims, 0);
    EvictedParts(c, w, victims, s');
    v := victims[0];
    OldestCandidates(c.policy, w, group, t, v);
  }

  /** The keys of the contents after `j` writes that are the oldest by that clock. */
  ghost predicate OldestAt(base: map<Str, Cell>, ws: seq<Write>, j: nat, t: int, clock: Clock, group: set<Str>, r: int)
    requires j <= |ws|
  {
    && group <= Overlay(base, ws[..j]).Keys
    && forall k :: k in Overlay(base, ws[..j]) ==>
         var read := if Rewritten(k, ws[..j]) then ReadingOf(clock, k) else t;
         if k in group then read == r else read > r
  }

  /** In every replay by that clock, one of these keys is lost at the first overflow. */
  lemma EveryReplayLoses(c: Config, s: State, states: seq<State>, ws: seq<Write>, j: nat,
                         t: int, clock: Clock, group: set<Str>, r: int) returns (v: Str)
    requires UsesHeap(c.policy) && Inv(s) && Replaying(c, s, Timed(ws, clock), states)
    requires LastRead(s, t, clock, ws, 0) && FirstOverflow(c, Cells(s), ws, j)
    requires OldestAt(Cells(s), ws, j, t, clock, group, r) && group != {} && [] !in group
    requires forall k :: k in group ==> !Rewritten(k, ws[j..])
    ensures |states| == |ws| + 1 && v in group && v !in states[|ws|].data
  {
    hide Inv, Replaying, Cells, Weight, Overlay, Rewritten, Written, Evicted, Oldest, Step;
    var ops := Timed(ws, clock);
    BelowAlong(c, s, states, ws, t, clock, j - 1);
    WriteAlong(c, s, states, ws, t, clock, j);
    var w := AfterWrite(states[j - 1], ops[j - 1]);
    GroupIsOldest(w, Cells(s), ws, j, t, clock, group, r);
    v := OneOfTheOldest(c, w, states[j], group, r);
    ReplayingSplit(c, s, ops, j, states);
    NotRewritten(ops, ws, j, v);
    GoneStays(c, states[j], ops[j..], states[j..], v);
  }

  lemma GroupIsOldest(w: State, base: map<Str, Cell>, ws: seq<Write>, j: nat,
                      t: int, clock: Clock, group: set<Str>, r: int)
    requires j <= |ws| && Cells(w) == Overlay(base, ws[..j]) && LastRead(w, t, clock, ws, j)
    requires OldestAt(base, ws, j, t, clock, group, r)
    ensures Oldest(w, group, r)
  {
    hide Overlay, Rewritten;
    assert Cells(w).Keys == w.data.Keys;
  }

  // ---------- The log alone ----------

  lemma RunOfReplay(c: Config, ops: seq<Op>, states: seq<State>)
    requires Replaying(c, EMPTY, ops, states)
    ensures Run(c, ops, states)
  {
    hide Step;
  }

  /** A written key, set back in time, is older than everything else. */
  lemma SetBackIsOldest(base: map<Str, Cell>, ws: seq<Write>, j: nat, k: Str, t: int)
    requires j <= |ws| && k in Overlay(base, ws[..j]) && Rewritten(k, ws[..j]) && t > 0
    ensures OldestAt(base, ws, j, t, Clock({k}, 0, t), {k}, 0)
  {
    hide Overlay, Rewritten;
  }

  /** Everything in the log's own contents has been written by it. */
  lemma {:induction false} OverlayWritten(ws: seq<Write>, k: Str)
    requires k in Overlay(map[], ws)
    ensures Rewritten(k, ws)
    decreases |ws|
  {
    var n := |ws| - 1;
    if ws[n].key != k {
      OverlayWritten(ws[..n], k);
      var i :| 0 <= i < n && ws[..n][i].key == k;
      assert ws[i].key == k;
    }
  }

  /**
   * A key exposed at the first overflow of a log is lost: under the random policies by
   * some replay, at any times; under LRU and LFU by every replay in which the SETs of
   * that key read an earlier time than all others, so that nothing ties with it.
   */
  lemma LosingReplay(c: Config, ws: seq<Write>, j: nat, k: Str) returns (ops: seq<Op>, states: seq<State>)
    requires c.policy != NoEviction && FirstOverflow(c, map[], ws, j) && Exposed(c.policy, map[], ws, j, k)
    ensures IsReplay(ops, ws) && Run(c, ops, states) && |states| == |ops| + 1
    ensures k !in states[|ops|].data && k in Overlay(map[], ws)
    ensures UsesHeap(c.policy) ==> forall xs: seq<State> :: Run(c, ops, xs) ==> k !in xs[|ops|].data
  {
    hide IsReplay, Replaying, FirstOverflow, Rewritten, Overlay, Inv, Exposed, Step, Timed;
    var clock := Clock({k}, 0, 1);
    ops := Timed(ws, clock);
    EmptyInv();
    assert Cells(EMPTY) == map[];
    OverflowBound(c, map[], ws, j);
    NotAgain(c.policy, map[], ws, j, k);
    OverlayKeys(map[], ws[..j], ws[j..]);
    assert ws[..j] + ws[j..] == ws;
    if UsesHeap(c.policy) {
      forall xs: seq<State> | Run(c, ops, xs) ensures k !in xs[|ops|].data {
        HeapReplayLoses(c, ws, j, k, xs);
      }
      ReplayLength(ops, ws);
      states := ReplayExists(c, EMPTY, ops);
    } else {
      states := ReplayMayLose(c, EMPTY, ops, ws, j, k);
    }
    RunOfReplay(c, ops, states);
  }

  lemma HeapReplayLoses(c: Config, ws: seq<Write>, j: nat, k: Str, states: seq<State>)
    requires UsesHeap(c.policy) && FirstOverflow(c, map[], ws, j) && Exposed(c.policy, map[], ws, j, k)
    requires Run(c, Timed(ws, Clock({k}, 0, 1)), states)
    ensures |states| == |ws| + 1 && k !in states[|ws|].data
  {
    var clock := Clock({k}, 0, 1);
    OverlayWritten(ws[..j], k);
    EmptyInv();
    assert Cells(EMPTY) == map[];
    assert LastRead(EMPTY, 1, clock, ws, 0);
    hide Step, Inv, Overlay, Rewritten, Overflows;
    assert Replaying(c, EMPTY, Timed(ws, clock), states);
    SetBackIsOldest(map[], ws, j, k, 1);
    var v := EveryReplayLoses(c, EMPTY, states, ws, j, 1, clock, {k}, 0);
  }

  /** Every replay of this log on a new server, at whatever times, ends with its contents. */
  ghost predicate AlwaysReplays(c: Config, ws: seq<Write>) {
    forall ops, states :: IsReplay(ops, ws) && Run(c, ops, states) ==>
      Cells(states[|ops|]) == Overlay(map[], ws)
  }

  /**
   * When every replay of a log alone rebuilds its contents, under every policy a server
   * can have: if the log is recoverable, and at its first overflow only if. The two meet
   * where a later overflow brings no further condition.
   */
  lemma LogExact(c: Config, ws: seq<Write>)
    ensures Recoverable(c, map[], ws) ==> AlwaysReplays(c, ws)
    ensures c.policy != NoEviction && AlwaysReplays(c, ws) ==>
      forall j :: FirstOverflow(c, map[], ws, j) ==> AllRewritten(c.policy, map[], ws, j)
    ensures c.policy != NoEviction && OnlyFirst(c, map[], ws) ==> (AlwaysReplays(c, ws) <==> Recoverable(c, map[], ws))
  {
    hide IsReplay, Run, Overlay, Weight, Overflows, AllRewritten, Cells;
    if Recoverable(c, map[], ws) {
      forall ops, states | IsReplay(ops, ws) && Run(c, ops, states)
        ensures |states| == |ops| + 1 && Cells(states[|ops|]) == Overlay(map[], ws)
      {
        RunPrefix(c, ops, states, 0);
        ReplayFromEmpty(c, ops, states, ws);
      }
    }
    if c.policy != NoEviction && AlwaysReplays(c, ws) {
      forall j | FirstOverflow(c, map[], ws, j) ensures AllRewritten(c.policy, map[], ws, j) {
        ReplaysAtFirst(c, ws, j);
      }
    }
  }

  /** Where the contents overflow and not all is rewritten, they overflow for the first time. */
  ghost predicate OnlyFirst(c: Config, base: map<Str, Cell>, ws: seq<Write>) {
    forall j :: 0 < j <= |ws| && Overflows(c, base, ws, j) && !AllRewritten(c.policy, base, ws, j) ==>
      FirstOverflow(c, base, ws, j)
  }

  lemma ReplaysAtFirst(c: Config, ws: seq<Write>, j: nat)
    requires c.policy != NoEviction && AlwaysReplays(c, ws) && FirstOverflow(c, map[], ws, j)
    ensures j <= |ws| && AllRewritten(c.policy, map[], ws, j)
  {
    OverflowBound(c, map[], ws, j);
    hide IsReplay, Run, Overlay, Overflows, Rewritten, Exposed, AllRewritten;
    forall k ensures !Exposed(c.policy, map[], ws, j, k) {
      if Exposed(c.policy, map[], ws, j, k) {
        var ops, states := LosingReplay(c, ws, j, k);
        assert false;
      }
    }
    ExposedOrRewritten(c.policy, map[], ws, j);
  }

  // ---------- A snapshot and the log ----------

  /** Every restart from these entries and this log, at whatever times, ends with the overlaid contents. */
  ghost predicate AlwaysRebuilds(c: Config, entries: seq<SnapshotEntry>, now: nat, ws: seq<Write>) {
    forall ops, states :: IsReplay(ops, ws) && Run(c, [Restore(entries, now)] + ops, states) ==>
      Cells(states[|ops| + 1]) == Overlay(FromEntries(entries, now), ws)
  }

  /** A restore followed by a replay is a run. */
  lemma RunOfRestart(c: Config, entries: seq<SnapshotEntry>, now: nat, ops: seq<Op>, states: seq<State>)
    requires DistinctKeys(entries) && Replaying(c, Loaded(EMPTY, entries, now), ops, states)
    ensures Run(c, [Restore(entries, now)] + ops, [EMPTY] + states)
  {
    var all, run := [Restore(entries, now)] + ops, [EMPTY] + states;
    assert Step(c, run[0], all[0], run[1]);
    hide Step, DistinctKeys, Loaded;
    forall i | 0 <= i < |all| ensures Allowed(all[i]) && Step(c, run[i], all[i], run[i + 1]) {
      if i > 0 {
        assert all[i] == ops[i - 1] && run[i] == states[i - 1];
      }
    }
  }

  /** The restored state from which the replay starts. */
  lemma RestoredStart(c: Config, entries: seq<SnapshotEntry>, now: nat, clock: Clock, ws: seq<Write>)
    requires DistinctKeys(entries)
    ensures var s := Loaded(EMPTY, entries, now);
      Inv(s) && Cells(s) == FromEntries(entries, now) && LastRead(s, now, clock, ws, 0)
  {
    EmptyInv();
    InvLoaded(EMPTY, entries, now);
    LoadedAges(EMPTY, entries, now);
    RestoredCells(c, EMPTY, entries, now, Loaded(EMPTY, entries, now));
    hide Inv, Loaded, FromEntries;
    assert ws[..0] == [];
  }

  lemma FirstRestored(c: Config, entries: seq<SnapshotEntry>, now: nat, ops: seq<Op>, states: seq<State>)
    requires Run(c, [Restore(entries, now)] + ops, states)
    ensures |states| == |ops| + 2 && states[1] == Loaded(EMPTY, entries, now)
  {
    hide Loaded;
    var all := [Restore(entries, now)] + ops;
    assert Step(c, states[0], all[0], states[1]);
  }

  /** Every run of such a restart replays from that state. */
  lemma RestartReplays(c: Config, entries: seq<SnapshotEntry>, now: nat,
                       ops: seq<Op>, states: seq<State>, ws: seq<Write>)
    requires Run(c, [Restore(entries, now)] + ops, states) && IsReplay(ops, ws)
    ensures |states| == |ops| + 2 && Replaying(c, Loaded(EMPTY, entries, now), ops, states[1..])
  {
    hide Run, IsReplay, Replaying, Loaded;
    AfterRestore(c, entries, now, ops, states, ws);
    FirstRestored(c, entries, now, ops, states);
  }

  /** Some restart by that clock. */
  lemma RestartExists(c: Config, entries: seq<SnapshotEntry>, now: nat, ws: seq<Write>, clock: Clock)
    returns (states: seq<State>)
    requires DistinctKeys(entries)
    ensures |states| == |ws| + 2 && Run(c, [Restore(entries, now)] + Timed(ws, clock), states)
  {
    RestoredStart(c, entries, now, clock, ws);
    hide Run, Replaying, Loaded, Inv, Timed, FromEntries, Cells, LastRead;
    ReplayLength(Timed(ws, clock), ws);
    var rest := ReplayExists(c, Loaded(EMPTY, entries, now), Timed(ws, clock));
    RunOfRestart(c, entries, now, Timed(ws, clock), rest);
    states := [EMPTY] + rest;
  }

  /**
   * A key exposed at the first overflow of a restart is lost: under the random policies
   * by some restart, at any times; under LRU and LFU, if the log has written it by then,
   * by every restart in which its SETs read an earlier time than all else.
   */
  lemma LosingRestart(c: Config, entries: seq<SnapshotEntry>, now: nat, ws: seq<Write>, j: nat, k: Str)
    returns (ops: seq<Op>, states: seq<State>)
    requires DistinctKeys(entries) && c.policy != NoEviction && FirstOverflow(c, FromEntries(entries, now), ws, j)
    requires Exposed(c.policy, FromEntries(entries, now), ws, j, k)
    requires UsesHeap(c.policy) ==> now > 0 && Rewritten(k, ws[..j])
    ensures IsReplay(ops, ws) && ops == Timed(ws, Clock({k}, 0, now))
    ensures Run(c, [Restore(entries, now)] + ops, states) && |states| == |ops| + 2
    ensures k !in states[|ops| + 1].data && k in Overlay(FromEntries(entries, now), ws)
    ensures UsesHeap(c.policy) ==>
      forall xs: seq<State> :: Run(c, [Restore(entries, now)] + ops, xs) ==> k !in xs[|ops| + 1].data
  {
    hide Run, IsReplay, Replaying, FirstOverflow, Rewritten, Overlay, FromEntries, Inv, Exposed, Loaded, Timed;
    hide LastRead;
    var clock, s := Clock({k}, 0, now), Loaded(EMPTY, entries, now);
    ops := Timed(ws, clock);
    RestoredStart(c, entries, now, clock, ws);
    OverflowBound(c, Cells(s), ws, j);
    NotAgain(c.policy, Cells(s), ws, j, k);
    OverlayKeys(Cells(s), ws[..j], ws[j..]);
    assert ws[..j] + ws[j..] == ws;
    if UsesHeap(c.policy) {
      forall xs: seq<State> | Run(c, [Restore(entries, now)] + ops, xs)
        ensures |xs| == |ops| + 2 && k !in xs[|ops| + 1].data
      {
        RestartReplays(c, entries, now, ops, xs, ws);
        SetBackIsOldest(Cells(s), ws, j, k, now);
        var v := EveryReplayLoses(c, s, xs[1..], ws, j, now, clock, {k}, 0);
      }
      states := RestartExists(c, entries, now, ws, clock);
    } else {
      var rest := ReplayMayLose(c, s, ops, ws, j, k);
      RunOfRestart(c, entries, now, ops, rest);
      states := [EMPTY] + rest;
    }
  }

  /** The restored keys that the log has not written when it first overflows. */
  function Untouched(base: map<Str, Cell>, ws: seq<Write>, j: nat): set<Str>
    requires j <= |ws|
  {
    set k | k in base && !Rewritten(k, ws[..j])
  }

  /** There are such keys, none is the empty one, and none is written later. */
  ghost predicate AllUntouched(base: map<Str, Cell>, ws: seq<Write>, j: nat)
    requires j <= |ws|
  {
    var group := Untouched(base, ws, j);
    group != {} && [] !in group && forall k :: k in group ==> !Rewritten(k, ws[j..])
  }

  lemma {:induction false} OverlayBase(base: map<Str, Cell>, ws: seq<Write>)
    ensures forall k :: k in Overlay(base, ws) <==> k in base || Rewritten(k, ws)
    decreases |ws|
  {
    if ws != [] {
      var n := |ws| - 1;
      OverlayBase(base, ws[..n]);
      forall k ensures Rewritten(k, ws) <==> Rewritten(k, ws[..n]) || k == ws[n].key {
        RewrittenSnoc(k, ws, n);
        assert ws[..n + 1] == ws;
      }
    }
  }

  /** With a clock that goes on from the restore, the untouched keys are the oldest. */
  lemma UntouchedAreOldest(base: map<Str, Cell>, ws: seq<Write>, j: nat, now: nat)
    requires j <= |ws|
    ensures OldestAt(base, ws, j, now, Clock({}, 0, now + 1), Untouched(base, ws, j), now)
  {
    OverlayBase(base, ws[..j]);
    hide Overlay, Rewritten;
  }

  /**
   * Under LRU and LFU, when the untouched keys of a snapshot are never written: every
   * restart whose clock goes on from the restore loses one of them, whichever of these
   * ties the heap resolves first.
   */
  lemma LosingUntouched(c: Config, entries: seq<SnapshotEntry>, now: nat, ws: seq<Write>, j: nat)
    returns (ops: seq<Op>, states: seq<State>)
    requires DistinctKeys(entries) && UsesHeap(c.policy) && FirstOverflow(c, FromEntries(entries, now), ws, j)
    requires AllUntouched(FromEntries(entries, now), ws, j)
    ensures IsReplay(ops, ws) && ops == Timed(ws, Clock({}, 0, now + 1))
    ensures Run(c, [Restore(entries, now)] + ops, states)
    ensures forall xs: seq<State> :: Run(c, [Restore(entries, now)] + ops, xs) ==>
      Cells(xs[|ops| + 1]).Keys != Overlay(FromEntries(entries, now), ws).Keys
  {
    var base, s := FromEntries(entries, now), Loaded(EMPTY, entries, now);
    var clock := Clock({}, 0, now + 1);
    var group := Untouched(base, ws, j);
    ops := Timed(ws, clock);
    RestoredStart(c, entries, now, clock, ws);
    states := RestartExists(c, entries, now, ws, clock);
    OverflowBound(c, base, ws, j);
    OverlayBase(base, ws);
    UntouchedAreOldest(base, ws, j, now);
    hide Run, IsReplay, Replaying, FirstOverflow, Rewritten, Overlay, FromEntries, Inv, Loaded, Timed, LastRead;
    hide OldestAt;
    forall xs: seq<State> | Run(c, [Restore(entries, now)] + ops, xs)
      ensures |xs| == |ops| + 2 && Cells(xs[|ops| + 1]).Keys != Overlay(base, ws).Keys
    {
      RestartReplays(c, entries, now, ops, xs, ws);
      var v := EveryReplayLoses(c, s, xs[1..], ws, j, now, clock, group, now);
      assert v in Overlay(base, ws) && v !in Cells(xs[|ops| + 1]);
    }
  }

  /**
   * When every restart rebuilds the contents, at whatever times it reads the clock.
   * Under every policy `Recoverable` is enough. Under the random policies it is needed
   * at the first overflow. Under LRU and LFU it is needed there for the keys that the
   * log has written; of the restored keys that it has not, some must be written later
   * or the empty key must be among them.
   */
  lemma RestartExact(c: Config, entries: seq<SnapshotEntry>, now: nat, ws: seq<Write>)
    requires DistinctKeys(entries) && (UsesHeap(c.policy) ==> now > 0)
    ensures var base := FromEntries(entries, now);
      && (Recoverable(c, base, ws) ==> AlwaysRebuilds(c, entries, now, ws))
      && (c.policy != NoEviction && AlwaysRebuilds(c, entries, now, ws) ==>
            forall j: nat, k :: FirstOverflow(c, base, ws, j) && Exposed(c.policy, base, ws, j, k) ==>
              UsesHeap(c.policy) && !Rewritten(k, ws[..j]))
      && (UsesHeap(c.policy) && AlwaysRebuilds(c, entries, now, ws) ==>
            forall j :: FirstOverflow(c, base, ws, j) ==> !AllUntouched(base, ws, j))
      && (c.policy != NoEviction && OnlyFirst(c, base, ws) && Decided(c, base, ws) ==>
            (AlwaysRebuilds(c, entries, now, ws) <==> Recoverable(c, base, ws)))
  {
    var base := FromEntries(entries, now);
    hide DistinctKeys, IsReplay, Run, FromEntries, Overlay, Weight, Overflows, AlwaysRebuilds, AllRewritten;
    hide Exposed, Rewritten, AllUntouched, Decided;
    if Recoverable(c, base, ws) {
      RecoverableRebuilds(c, entries, now, ws);
    }
    if c.policy != NoEviction && AlwaysRebuilds(c, entries, now, ws) {
      forall j: nat, k | FirstOverflow(c, base, ws, j) && Exposed(c.policy, base, ws, j, k)
        ensures UsesHeap(c.policy) && !Rewritten(k, ws[..j])
      {
        RebuildsAtFirst(c, entries, now, ws, j, k);
      }
      forall j | UsesHeap(c.policy) && FirstOverflow(c, base, ws, j) ensures !AllUntouched(base, ws, j) {
        RebuildsUntouched(c, entries, now, ws, j);
      }
      forall j | FirstOverflow(c, base, ws, j) && Decided(c, base, ws) ensures AllRewritten(c.policy, base, ws, j) {
        DecidedAtFirst(c, base, ws, j);
      }
    }
  }

  /** Under LRU and LFU: when it first overflows, the log has written every restored key but the empty one. */
  ghost predicate Decided(c: Config, base: map<Str, Cell>, ws: seq<Write>) {
    UsesHeap(c.policy) ==>
      forall j: nat, k :: FirstOverflow(c, base, ws, j) && k in base && k != [] ==> Rewritten(k, ws[..j])
  }

  lemma DecidedAtFirst(c: Config, base: map<Str, Cell>, ws: seq<Write>, j: nat)
    requires FirstOverflow(c, base, ws, j) && Decided(c, base, ws)
    requires forall k :: Exposed(c.policy, base, ws, j, k) ==> UsesHeap(c.policy) && !Rewritten(k, ws[..j])
    ensures AllRewritten(c.policy, base, ws, j)
  {
    OverflowBound(c, base, ws, j);
    OverlayBase(base, ws[..j]);
    hide FirstOverflow, Overlay, Rewritten;
    forall k ensures !Exposed(c.policy, base, ws, j, k) {
    }
    hide Exposed;
    ExposedOrRewritten(c.policy, base, ws, j);
  }

  lemma RecoverableRebuilds(c: Config, entries: seq<SnapshotEntry>, now: nat, ws: seq<Write>)
    requires Recoverable(c, FromEntries(entries, now), ws)
    ensures AlwaysRebuilds(c, entries, now, ws)
  {
    hide IsReplay, FromEntries, Overlay, Recoverable, Step;
    forall ops, states | IsReplay(ops, ws) && Run(c, [Restore(entries, now)] + ops, states)
      ensures Cells(states[|ops| + 1]) == Overlay(FromEntries(entries, now), ws)
    {
      RestartRebuilds(c, entries, now, ops, states, ws);
    }
  }

  lemma RebuildsAtFirst(c: Config, entries: seq<SnapshotEntry>, now: nat, ws: seq<Write>, j: nat, k: Str)
    requires DistinctKeys(entries) && (UsesHeap(c.policy) ==> now > 0)
    requires c.policy != NoEviction && AlwaysRebuilds(c, entries, now, ws)
    requires FirstOverflow(c, FromEntries(entries, now), ws, j)
    requires Exposed(c.policy, FromEntries(entries, now), ws, j, k)
    ensures UsesHeap(c.policy) && !Rewritten(k, ws[..j])
  {
    hide DistinctKeys, IsReplay, Run, FromEntries, Overlay, Overflows, Rewritten, Exposed, Timed;
    if UsesHeap(c.policy) ==> Rewritten(k, ws[..j]) {
      var ops, states := LosingRestart(c, entries, now, ws, j, k);
      assert false;
    }
  }

  lemma RebuildsUntouched(c: Config, entries: seq<SnapshotEntry>, now: nat, ws: seq<Write>, j: nat)
    requires DistinctKeys(entries) && UsesHeap(c.policy) && AlwaysRebuilds(c, entries, now, ws)
    requires FirstOverflow(c, FromEntries(entries, now), ws, j)
    ensures j <= |ws| && !AllUntouched(FromEntries(entries, now), ws, j)
  {
    OverflowBound(c, FromEntries(entries, now), ws, j);
    hide DistinctKeys, IsReplay, Run, FromEntries, Overlay, Overflows, AllUntouched, Timed;
    if AllUntouched(FromEntries(entries, now), ws, j) {
      var ops, states := LosingUntouched(c, entries, now, ws, j);
      assert false;
    }
  }
}
